/** Whether the final index holds strictly increasing id lists, as the query side relies on
    (every merge of search.py walks its lists in increasing order). `index_file` appends
    ids in the order the documents are read (index.py:105-107), that order is the order
    of `os.listdir` (index.py:66), which promises none, and `merge` keeps a term found in
    one block only as it is (index.py:153-160). So the lists are strictly increasing when
    the documents are read in increasing id order, and not in general. */
module IdOrder {
  import opened Dicts
  import opened Sorting
  import opened Entries
  import opened SkipPointers
  import opened Indexer
  import Merges
  import Evaluator

  /** The documents are read in strictly increasing id order. */
  predicate IdsIncrease(docs: seq<Doc>)
  {
    forall i, j :: 0 <= i < j < |docs| ==> docs[i].id < docs[j].id
  }

  /** A strictly increasing list of ids between lo and hi. */
  predicate ListWithin(s: seq<int>, lo: int, hi: int)
  {
    StrictlySorted(s) && forall x :: x in s ==> lo <= x <= hi
  }

  /** A well-formed dictionary with no empty list whose every list is strictly increasing
      and holds only ids between lo and hi. */
  ghost predicate Within(d: Dict, lo: int, hi: int)
  {
    DictOk(d) && NonEmptyLists(d) && forall t :: t in d.lists ==> ListWithin(d.lists[t], lo, hi)
  }

  /** Reading a document whose id exceeds every id held so far keeps every list strictly
      increasing: a word's list gets the new id at its end, or is created as [doc]. */
  lemma WordsWithin(d: Dict, words: seq<string>, doc: int, lo: int, hi: int)
    requires Within(d, lo, hi) && hi < doc && lo <= doc
    ensures Within(IndexWords(d, words, doc), lo, doc)
  {
    IndexWordsMeaning(d, words, doc);
    var r := IndexWords(d, words, doc);
    forall t | t in r.lists ensures ListWithin(r.lists[t], lo, doc) {
      if t in words && t in d.lists {
        var s := d.lists[t];
        assert doc !in s;
        Merges.SortedSnoc(s, doc);
        assert r.lists[t] == s + [doc];
      }
    }
  }

  /** The in-memory index of documents read in increasing id order: every list strictly
      increasing, between the first and the last document's id. */
  lemma {:induction false} IndexDocsWithin(ds: seq<Doc>)
    requires ds != [] && IdsIncrease(ds)
    ensures Within(IndexDocs(EmptyDict, ds), ds[0].id, ds[|ds| - 1].id)
    decreases |ds|
  {
    var init, last := ds[..|ds| - 1], ds[|ds| - 1];
    if init == [] {
      assert Within(EmptyDict, last.id, last.id - 1);
      WordsWithin(EmptyDict, last.words, last.id, last.id, last.id - 1);
    } else {
      IndexDocsWithin(init);
      assert init[0] == ds[0] && init[|init| - 1] == ds[|ds| - 2];
      WordsWithin(IndexDocs(EmptyDict, init), last.words, last.id, ds[0].id, ds[|ds| - 2].id);
    }
  }

  /** Two strictly increasing lists, every id of the first below every id of the second,
      joined are strictly increasing. */
  lemma JoinIncreasing(a: seq<int>, b: seq<int>)
    requires StrictlySorted(a) && StrictlySorted(b)
    requires forall x, y :: x in a && y in b ==> x < y
    ensures StrictlySorted(a + b)
  {
    var s := a + b;
    forall i, j | 0 <= i < j < |s| ensures s[i] < s[j] {
      if j >= |a| && i < |a| {
        assert s[i] in a && s[j] in b;
      }
    }
  }

  /** `merge` of a left block whose ids all lie below the right block's keeps every list
      strictly increasing: a shared term's `sorted(left + right)` is the two lists joined. */
  lemma MergeWithin(l: Dict, r: Dict, lo: int, m1: int, m2: int, hi: int)
    requires Within(l, lo, m1) && Within(r, m2, hi) && m1 < m2 && lo <= m2 && m1 <= hi
    ensures Within(MergeDicts(l, r), lo, hi)
  {
    MergeDictsLists(l, r);
    var m := MergeDicts(l, r);
    forall t | t in m.lists ensures m.lists[t] != [] && ListWithin(m.lists[t], lo, hi) {
      if t in l.lists && t in r.lists {
        SharedWithin(l.lists[t], r.lists[t], lo, m1, m2, hi);
      }
    }
  }

  /** A shared term's `sorted(left + right)` when every left id is below every right id:
      the two lists joined. */
  lemma SharedWithin(a: seq<int>, b: seq<int>, lo: int, m1: int, m2: int, hi: int)
    requires ListWithin(a, lo, m1) && ListWithin(b, m2, hi) && a != [] && m1 < m2 && lo <= m2 && m1 <= hi
    ensures SortIds(a + b) == a + b && ListWithin(a + b, lo, hi)
  {
    JoinIncreasing(a, b);
    assert SortedBy(a + b, IntLe);
    SortIdsOfSorted(a + b);
  }

  /** One past the last document of block e. */
  function BlockEnd(docs: seq<Doc>, size: nat, e: nat): nat
  {
    Min(Start(e + 1, size), |docs|)
  }

  /** Documents i .. k - 1 exist and every list of d lies between their first and last id. */
  ghost predicate Bounded(d: Dict, docs: seq<Doc>, i: nat, k: nat)
  {
    i < k <= |docs| && Within(d, docs[i].id, docs[k - 1].id)
  }

  /** The dictionary that `merge_blocks_on_disk(s, e)` leaves for created blocks s .. e has
      strictly increasing lists, between the ids of the range's first and last documents. */
  ghost predicate RangeWithin(docs: seq<Doc>, size: nat, s: nat, e: nat)
  {
    Bounded(TreeMerge(Created(docs, size), s, e), docs, Start(s, size), BlockEnd(docs, size, e))
  }

  /** With the documents read in increasing id order, every range of created blocks
      merges to strictly increasing lists within the range's ids. */
  lemma {:induction false} TreeWithin(docs: seq<Doc>, size: nat, last: nat, s: nat, e: nat)
    requires size > 0 && IdsIncrease(docs) && Start(last, size) < |docs| && s <= e <= last
    ensures RangeWithin(docs, size, s, e)
    decreases e - s
  {
    if s == e {
      BlockWithin(docs, size, last, s);
    } else {
      var mid := Mid(s, e);
      TreeWithin(docs, size, last, s, mid);
      TreeWithin(docs, size, last, mid + 1, e);
      HalvesWithin(docs, size, last, s, mid, e);
    }
  }

  /** A created block: the sorted in-memory index of its chunk. */
  lemma BlockWithin(docs: seq<Doc>, size: nat, last: nat, s: nat)
    requires size > 0 && IdsIncrease(docs) && Start(last, size) < |docs| && s <= last
    ensures RangeWithin(docs, size, s, s)
  {
    StartMonotone(s, last, size);
    StartAtLeast(s, size);
    var b := Created(docs, size);
    assert s in b;
    assert TreeMerge(b, s, s) == BlockOf(docs, size, s);
    ChunkWithin(docs, size, s);
  }

  /** A run of documents read in increasing id order is itself in increasing id order. */
  lemma SliceIncreasing(docs: seq<Doc>, i: nat, j: nat)
    requires IdsIncrease(docs) && i <= j <= |docs|
    ensures IdsIncrease(docs[i..j])
  {
    var c := docs[i..j];
    forall p, q | 0 <= p < q < |c| ensures c[p].id < c[q].id {
      assert c[p] == docs[i + p] && c[q] == docs[i + q];
    }
  }

  /** The stored dictionary of one run of documents read in increasing id order. */
  lemma ChunkWithin(docs: seq<Doc>, size: nat, s: nat)
    requires size > 0 && IdsIncrease(docs) && Start(s, size) < |docs|
    ensures Start(s, size) < BlockEnd(docs, size, s) <= |docs|
            && Within(BlockOf(docs, size, s), docs[Start(s, size)].id, docs[BlockEnd(docs, size, s) - 1].id)
  {
    var i, j := Start(s, size), BlockEnd(docs, size, s);
    assert Start(s + 1, size) == i + size;
    var chunk := docs[i..j];
    assert Chunk(docs, size, s) == chunk;
    SliceIncreasing(docs, i, j);
    IndexDocsWithin(chunk);
    assert chunk[0] == docs[i] && chunk[|chunk| - 1] == docs[j - 1];
    SortedWithin(IndexDocs(EmptyDict, chunk), docs[i].id, docs[j - 1].id);
  }

  /** Writing a block sorts its keys and leaves its lists alone. */
  lemma SortedWithin(d: Dict, lo: int, hi: int)
    requires Within(d, lo, hi)
    ensures Within(SortedDict(d), lo, hi)
  {
    SortedDictOk(d);
  }

  /** The two halves of a range: every id of the left half lies below every id of the
      right half, so their merge stays within the range's bounds. */
  lemma HalvesWithin(docs: seq<Doc>, size: nat, last: nat, s: nat, mid: nat, e: nat)
    requires size > 0 && IdsIncrease(docs) && Start(last, size) < |docs| && s <= mid < e <= last
    requires mid == Mid(s, e) && RangeWithin(docs, size, s, mid) && RangeWithin(docs, size, mid + 1, e)
    ensures RangeWithin(docs, size, s, e)
  {
    var b := Created(docs, size);
    var l, r := TreeMerge(b, s, mid), TreeMerge(b, mid + 1, e);
    assert BlockEnd(docs, size, mid) == Start(mid + 1, size);
    JoinBounded(l, r, docs, Start(s, size), Start(mid + 1, size), BlockEnd(docs, size, e));
    assert TreeMerge(b, s, e) == MergeDicts(l, r);
  }

  /** Merging the dictionaries of two adjacent runs of documents read in increasing id
      order keeps every list within the ids of the joined run. */
  lemma JoinBounded(l: Dict, r: Dict, docs: seq<Doc>, i: nat, j: nat, k: nat)
    requires IdsIncrease(docs) && Bounded(l, docs, i, j) && Bounded(r, docs, j, k)
    ensures Bounded(MergeDicts(l, r), docs, i, k)
  {
    IdsAscend(docs, i, j - 1, j, k - 1);
    MergeWithin(l, r, docs[i].id, docs[j - 1].id, docs[j].id, docs[k - 1].id);
  }

  /** Ids read in increasing order, at four positions in order. */
  lemma IdsAscend(docs: seq<Doc>, i: nat, p: nat, q: nat, k: nat)
    requires IdsIncrease(docs) && i <= p < q <= k < |docs|
    ensures docs[i].id <= docs[p].id < docs[q].id <= docs[k].id
  {
  }

  /** What the search side reads back for each term of the final block: the skip list
      written for it (index.py:185), decoded. */
  function Decoded(d: Dict): Evaluator.Index
    requires NonEmptyLists(d)
  {
    map t | t in d.lists :: SkipList(d.lists[t])
  }

  /** When the documents are read in increasing id order, every list of the final block
      `build_index` leaves (blocks 0 .. last merged) is strictly increasing, and so the
      index the search side decodes from it meets the query side's `IndexSorted`. */
  lemma FinalListsIncrease(docs: seq<Doc>, size: nat, last: nat)
    requires size > 0 && IdsIncrease(docs) && Start(last, size) < |docs|
    ensures var d := TreeMerge(Created(docs, size), 0, last);
            NonEmptyLists(d)
            && (forall t :: t in d.lists ==> StrictlySorted(d.lists[t]))
            && Evaluator.IndexSorted(Decoded(d))
  {
    TreeWithin(docs, size, last, 0, last);
  }

  /** Read in the other order, the files "14" and "5", both holding the word w, give w the
      list [14, 5] in the final block, which is not increasing. */
  lemma ReadOrderKept()
    ensures var docs := [Doc(14, ["w"]), Doc(5, ["w"])];
            var d := TreeMerge(Created(docs, BlockSize), 0, 0);
            "w" in d.lists && d.lists["w"] == [14, 5] && !StrictlySorted(d.lists["w"])
  {
    var docs := [Doc(14, ["w"]), Doc(5, ["w"])];
    assert Start(1, BlockSize) == BlockSize;
    assert 0 in Created(docs, BlockSize);
    assert Chunk(docs, BlockSize, 0) == docs;
    var w: seq<string> := ["w"];
    assert w[..|w| - 1] == [];
    var init := docs[..1];
    assert init[..|init| - 1] == [] && init[0] == Doc(14, w);
    var first := IndexDocs(EmptyDict, init);
    assert first == IndexWords(IndexDocs(EmptyDict, []), w, 14);
    assert first == IndexWords(EmptyDict, w, 14) == AddWord(EmptyDict, "w", 14);
    assert first.lists["w"] == [14];
    assert IndexDocs(EmptyDict, docs) == IndexWords(first, w, 5) == AddWord(first, "w", 5);
    assert 5 !in first.lists["w"];
    assert AddWord(first, "w", 5).lists["w"] == [14, 5];
    var b := Created(docs, BlockSize);
    assert TreeMerge(b, 0, 0) == Get(b, 0) == b[0] == BlockOf(docs, BlockSize, 0);
    assert BlockOf(docs, BlockSize, 0).lists == IndexDocs(EmptyDict, docs).lists;
    assert [14, 5][0] >= [14, 5][1];
  }
}
