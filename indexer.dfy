/** Index construction (index.py:46-198): per-document accumulation into a term -> ids
    dictionary, the flush of a block every BLOCK_SIZE documents, the pairwise merge of the
    blocks over a closed range of block numbers, and the final layout of the postings and
    dictionary files. Sentence and word tokenization and stemming happen before a document
    reaches this model: a document is its id and its list of stemmed words. The `blocks/`
    directory is a map from block number to the dictionary stored in that file, and `str` of
    a skip list is an abstract `encode`. */
module Indexer {
  import opened Wrappers
  import opened Dicts
  import opened Sorting
  import opened Entries
  import opened SkipPointers
  import opened Numerals
  import Arith

  /** BLOCK_SIZE (index.py:36): documents per intermediate block. */
  const BlockSize: nat := 2000

  /** The block size `build_index` uses: 1 for the sample folder (index.py:53-54). */
  function SizeFor(sampleFolder: bool): (size: nat)
    ensures size > 0
  {
    if sampleFolder then 1 else BlockSize
  }

  // ---------------------------------------------------------------- index_file

  /** One word of `index_file` (index.py:103-110): a new word gets the list [doc], a known
      word gets doc appended unless its list already holds it. */
  function AddWord(d: Dict, w: string, doc: int): Dict
  {
    if w in d.lists then
      if doc in d.lists[w] then d else Dict(d.keys, d.lists[w := d.lists[w] + [doc]])
    else Dict(d.keys + [w], d.lists[w := [doc]])
  }

  /** The dictionary after `index_file` has read the stemmed words of document doc. */
  function IndexWords(d: Dict, words: seq<string>, doc: int): Dict
  {
    if words == [] then d else AddWord(IndexWords(d, words[..|words| - 1], doc), words[|words| - 1], doc)
  }

  /** The list a word of document doc ends up with. */
  function Grown(d: Dict, t: string, doc: int): seq<int>
  {
    if t !in d.lists then [doc] else if doc in d.lists[t] then d.lists[t] else d.lists[t] + [doc]
  }

  /** One word keeps the dictionary well formed, gives the word its grown list and leaves
      every other term alone. */
  lemma AddWordMeaning(d: Dict, w: string, doc: int)
    requires DictOk(d) && NonEmptyLists(d)
    ensures var r := AddWord(d, w, doc);
            DictOk(r) && NonEmptyLists(r)
            && (forall t :: t in r.lists <==> t in d.lists || t == w)
            && r.lists[w] == Grown(d, w, doc)
            && (forall t :: t in d.lists && t != w ==> r.lists[t] == d.lists[t])
  {
    if w !in d.lists {
      var k := d.keys + [w];
      assert multiset(k) == multiset(d.keys) + multiset{w};
      forall t | t in k ensures multiset(k)[t] == 1 {
        if t != w {
          assert t in d.keys;
        }
      }
    }
  }

  /** A grown list holds doc, so a repeated word changes nothing more. */
  lemma GrownHolds(d: Dict, t: string, doc: int)
    ensures doc in Grown(d, t, doc)
  {
    if t in d.lists && doc !in d.lists[t] {
      assert (d.lists[t] + [doc])[|d.lists[t]|] == doc;
    }
  }

  /** After `index_file` on document doc: the terms are the old ones and doc's words; each
      of doc's words has its list grown by doc once; every other list is unchanged. */
  lemma {:induction false} IndexWordsMeaning(d: Dict, words: seq<string>, doc: int)
    requires DictOk(d) && NonEmptyLists(d)
    ensures var r := IndexWords(d, words, doc);
            DictOk(r) && NonEmptyLists(r)
            && (forall t :: t in r.lists <==> t in d.lists || t in words)
            && (forall t :: t in words ==> r.lists[t] == Grown(d, t, doc))
            && (forall t :: t in d.lists && t !in words ==> r.lists[t] == d.lists[t])
  {
    if words != [] {
      var init, w := words[..|words| - 1], words[|words| - 1];
      var p := IndexWords(d, init, doc);
      IndexWordsMeaning(d, init, doc);
      AddWordMeaning(p, w, doc);
      WordsSnoc(words, init, w);
      var r := AddWord(p, w, doc);
      assert r == IndexWords(d, words, doc);
      forall t | t in words ensures r.lists[t] == Grown(d, t, doc) {
        if t == w && w in init {
          GrownHolds(d, w, doc);
        }
      }
    }
  }

  lemma WordsSnoc(words: seq<string>, init: seq<string>, w: string)
    requires words != [] && init == words[..|words| - 1] && w == words[|words| - 1]
    ensures forall t :: t in words <==> t in init || t == w
  {
    assert words == init + [w];
  }

  /** A document whose id no list holds yet ends up exactly once in each of its words'
      lists. */
  lemma GrownOnce(d: Dict, t: string, doc: int)
    requires t in d.lists ==> doc !in d.lists[t]
    ensures multiset(Grown(d, t, doc))[doc] == 1
    ensures t in d.lists ==> Grown(d, t, doc)[..|d.lists[t]|] == d.lists[t]
  {
    if t in d.lists {
      assert (d.lists[t] + [doc])[..|d.lists[t]|] == d.lists[t];
    }
  }

  // ---------------------------------------------------------------- blocks

  /** A document as the indexer sees it: its id (the file name as an integer) and its
      stemmed words in order. */
  datatype Doc = Doc(id: int, words: seq<string>)

  /** The in-memory index after `index_file` has read each of the documents in turn. */
  function IndexDocs(d: Dict, docs: seq<Doc>): Dict
  {
    if docs == [] then d
    else IndexWords(IndexDocs(d, docs[..|docs| - 1]), docs[|docs| - 1].words, docs[|docs| - 1].id)
  }

  /** What `write_block_to_disk` stores (index.py:112-120): the same lists with the keys in
      code-point order. */
  function SortedDict(d: Dict): Dict
  {
    Dict(SortTerms(d.keys), d.lists)
  }

  /** `sorted` on a list of terms. */
  function SortTerms(s: seq<string>): (r: seq<string>)
    ensures SortedBy(r, StrLe) && multiset(r) == multiset(s)
  {
    StrLeIsTotalPreorder();
    Sort(s, StrLe)
  }

  lemma SortedDictOk(d: Dict)
    requires DictOk(d) && NonEmptyLists(d)
    ensures var s := SortedDict(d);
            DictOk(s) && NonEmptyLists(s) && SortedBy(s.keys, StrLe) && s.lists == d.lists
  {
    var k := SortedDict(d).keys;
    assert multiset(k) == multiset(d.keys);
    forall t ensures t in k <==> t in d.keys {
      assert t in k <==> t in multiset(k);
      assert t in d.keys <==> t in multiset(d.keys);
    }
  }

  function Min(a: nat, b: nat): nat
  {
    if a <= b then a else b
  }

  /** Where block k's documents start: k runs of size documents. */
  function Start(k: nat, size: nat): nat
  {
    if k == 0 then 0 else Start(k - 1, size) + size
  }

  lemma {:induction false} StartIsProduct(k: nat, size: nat)
    ensures Start(k, size) == k * size
  {
    if k > 0 {
      StartIsProduct(k - 1, size);
      Arith.MulPred(k, size);
    }
  }

  /** The documents of block k: the k-th run of size documents, the last run possibly
      shorter. */
  function Chunk(docs: seq<Doc>, size: nat, k: nat): seq<Doc>
    requires Start(k, size) <= |docs|
  {
    docs[Start(k, size) .. Min(Start(k + 1, size), |docs|)]
  }

  /** The stored dictionary of block k. */
  function BlockOf(docs: seq<Doc>, size: nat, k: nat): Dict
    requires Start(k, size) <= |docs|
  {
    SortedDict(IndexDocs(EmptyDict, Chunk(docs, size, k)))
  }

  lemma {:induction false} IndexDocsOk(d: Dict, docs: seq<Doc>)
    requires DictOk(d) && NonEmptyLists(d)
    ensures DictOk(IndexDocs(d, docs)) && NonEmptyLists(IndexDocs(d, docs))
  {
    if docs != [] {
      IndexDocsOk(d, docs[..|docs| - 1]);
      IndexWordsMeaning(IndexDocs(d, docs[..|docs| - 1]), docs[|docs| - 1].words, docs[|docs| - 1].id);
    }
  }

  /** Document i lies in block b exactly when i / size == b, and it is the block's last
      full-size position exactly when i % size == size - 1. */
  lemma BlockPosition(b: nat, size: nat, i: nat)
    requires size > 0 && Start(b, size) <= i < Start(b + 1, size)
    ensures i / size == b
    ensures i % size == size - 1 <==> i + 1 == Start(b + 1, size)
  {
    StartIsProduct(b, size);
    StartIsProduct(b + 1, size);
    Arith.MulPred(b + 1, size);
    Arith.DivModUnique(i, size, b, i - b * size);
  }

  /** The state of the block loop once documents 0 .. i - 1 are indexed: blocks 0 ..
      blockNo - 1 are stored and hold their chunks, and the in-memory index holds the
      documents of block blockNo read so far; after the last document the last block is
      stored too and the in-memory index is empty. */
  ghost predicate Loop(blocks: map<nat, Dict>, blockNo: nat, memIndex: Dict, docs: seq<Doc>, size: nat, i: nat)
  {
    Pending(blockNo, memIndex, docs, size, i)
    && Numbered(blocks, blockNo, i == |docs| && i > 0)
    && Holds(blocks, docs, size)
  }

  /** Where the loop is in the current block, and what the in-memory index holds. */
  ghost predicate Pending(blockNo: nat, memIndex: Dict, docs: seq<Doc>, size: nat, i: nat)
  {
    && i <= |docs|
    && (i < |docs| ==> Start(blockNo, size) <= i < Start(blockNo + 1, size)
                       && memIndex == IndexDocs(EmptyDict, docs[Start(blockNo, size) .. i]))
    && (i == |docs| ==> memIndex == EmptyDict)
    && (i == |docs| && i > 0 ==> Start(blockNo, size) < i <= Start(blockNo + 1, size))
    && (i == 0 ==> blockNo == 0)
  }

  /** The stored blocks are numbered 0 .. blockNo - 1, and blockNo too once it is written. */
  ghost predicate Numbered(blocks: map<nat, Dict>, blockNo: nat, written: bool)
  {
    forall k: nat :: k in blocks <==> k < blockNo || (written && k == blockNo)
  }

  /** Every stored block holds its chunk's dictionary. */
  ghost predicate Holds(blocks: map<nat, Dict>, docs: seq<Doc>, size: nat)
  {
    forall k: nat {:trigger BlockOf(docs, size, k)} :: k in blocks ==> Start(k, size) <= |docs| && blocks[k] == BlockOf(docs, size, k)
  }

  /** Before the first document: no block and an empty in-memory index. */
  lemma LoopStart(docs: seq<Doc>, size: nat)
    requires size > 0
    ensures Loop(map[], 0, EmptyDict, docs, size, 0)
  {
    assert docs[0 .. 0] == [];
  }

  /** The ids of the documents (`doc_id_set`). */
  function Ids(docs: seq<Doc>): set<int>
  {
    set d | d in docs :: d.id
  }

  lemma IdsSnoc(docs: seq<Doc>, i: nat)
    requires i < |docs|
    ensures Ids(docs[..i + 1]) == Ids(docs[..i]) + {docs[i].id}
  {
    assert docs[..i + 1] == docs[..i] + [docs[i]];
  }

  /** Reading a document that neither completes its block nor is the last one only grows
      the in-memory index. */
  lemma LoopIndex(blocks: map<nat, Dict>, blockNo: nat, memIndex: Dict, docs: seq<Doc>, size: nat, i: nat)
    requires size > 0 && i < |docs| && Loop(blocks, blockNo, memIndex, docs, size, i)
    requires i + 1 < Start(blockNo + 1, size) && i + 1 < |docs|
    ensures Loop(blocks, blockNo, IndexWords(memIndex, docs[i].words, docs[i].id), docs, size, i + 1)
  {
    PendingIndex(blockNo, memIndex, docs, size, i);
  }

  lemma PendingIndex(blockNo: nat, memIndex: Dict, docs: seq<Doc>, size: nat, i: nat)
    requires size > 0 && i < |docs| && Pending(blockNo, memIndex, docs, size, i)
    requires i + 1 < Start(blockNo + 1, size) && i + 1 < |docs|
    ensures Pending(blockNo, IndexWords(memIndex, docs[i].words, docs[i].id), docs, size, i + 1)
  {
    var lo := Start(blockNo, size);
    var s := docs[lo .. i + 1];
    assert s[..|s| - 1] == docs[lo .. i];
    assert s[|s| - 1] == docs[i];
  }

  /** Reading the document that completes its block, or the last one, stores the block as
      its chunk's dictionary and empties the in-memory index; the block number moves on
      unless the document was the last. */
  lemma LoopFlush(blocks: map<nat, Dict>, blockNo: nat, memIndex: Dict, docs: seq<Doc>, size: nat, i: nat)
    requires size > 0 && i < |docs| && Loop(blocks, blockNo, memIndex, docs, size, i)
    requires i + 1 == Start(blockNo + 1, size) || i + 1 == |docs|
    ensures var m := IndexWords(memIndex, docs[i].words, docs[i].id);
            var next := if i + 1 == |docs| then blockNo else blockNo + 1;
            Loop(blocks[blockNo := SortedDict(m)], next, EmptyDict, docs, size, i + 1)
  {
    var m := IndexWords(memIndex, docs[i].words, docs[i].id);
    var next := if i + 1 == |docs| then blockNo else blockNo + 1;
    FlushedBlock(blockNo, memIndex, docs, size, i);
    HoldsStore(blocks, blockNo, SortedDict(m), docs, size);
    NumberedStore(blocks, blockNo, SortedDict(m), next, i + 1 == |docs|);
    PendingFlush(blockNo, docs, size, i);
  }

  lemma HoldsAt(blocks: map<nat, Dict>, docs: seq<Doc>, size: nat, k: nat)
    requires Holds(blocks, docs, size) && k in blocks
    ensures Start(k, size) <= |docs| && blocks[k] == BlockOf(docs, size, k)
  {
  }

  lemma HoldsStore(blocks: map<nat, Dict>, no: nat, block: Dict, docs: seq<Doc>, size: nat)
    requires Holds(blocks, docs, size) && Start(no, size) <= |docs| && block == BlockOf(docs, size, no)
    ensures Holds(blocks[no := block], docs, size)
  {
    forall k: nat | k in blocks[no := block]
      ensures Start(k, size) <= |docs| && blocks[no := block][k] == BlockOf(docs, size, k)
    {
      if k != no {
        HoldsAt(blocks, docs, size, k);
      }
    }
  }

  lemma NumberedStore(blocks: map<nat, Dict>, no: nat, block: Dict, next: nat, last: bool)
    requires Numbered(blocks, no, false) && next == if last then no else no + 1
    ensures Numbered(blocks[no := block], next, last)
  {
  }

  lemma PendingFlush(blockNo: nat, docs: seq<Doc>, size: nat, i: nat)
    requires size > 0 && i < |docs| && Start(blockNo, size) <= i < Start(blockNo + 1, size)
    requires i + 1 == Start(blockNo + 1, size) || i + 1 == |docs|
    ensures Pending(if i + 1 == |docs| then blockNo else blockNo + 1, EmptyDict, docs, size, i + 1)
  {
    if i + 1 < |docs| {
      assert docs[Start(blockNo + 1, size) .. i + 1] == [];
    }
  }

  /** The index of a block's documents, once the last of them is read, sorted, is the
      block's chunk dictionary. */
  lemma FlushedBlock(blockNo: nat, memIndex: Dict, docs: seq<Doc>, size: nat, i: nat)
    requires size > 0 && i < |docs| && Start(blockNo, size) <= i < Start(blockNo + 1, size)
    requires memIndex == IndexDocs(EmptyDict, docs[Start(blockNo, size) .. i])
    requires i + 1 == Start(blockNo + 1, size) || i + 1 == |docs|
    ensures Start(blockNo, size) <= |docs|
    ensures SortedDict(IndexWords(memIndex, docs[i].words, docs[i].id)) == BlockOf(docs, size, blockNo)
  {
    var lo := Start(blockNo, size);
    var s := docs[lo .. i + 1];
    assert s[..|s| - 1] == docs[lo .. i];
    assert s[|s| - 1] == docs[i];
    assert IndexDocs(EmptyDict, s) == IndexWords(memIndex, docs[i].words, docs[i].id);
    ChunkEnd(blockNo, docs, size, i);
  }

  lemma ChunkEnd(blockNo: nat, docs: seq<Doc>, size: nat, i: nat)
    requires size > 0 && i < |docs| && Start(blockNo, size) <= i < Start(blockNo + 1, size)
    requires i + 1 == Start(blockNo + 1, size) || i + 1 == |docs|
    ensures Start(blockNo, size) <= |docs| && Chunk(docs, size, blockNo) == docs[Start(blockNo, size) .. i + 1]
  {
  }

  /** Once every document is read: blocks 0 .. (n - 1) / size are stored, each holding its
      chunk, and nothing else; with no documents, no block at all. */
  lemma LoopDone(blocks: map<nat, Dict>, blockNo: nat, memIndex: Dict, docs: seq<Doc>, size: nat)
    requires size > 0 && Loop(blocks, blockNo, memIndex, docs, size, |docs|)
    ensures memIndex == EmptyDict
    ensures docs == [] ==> blocks == map[] && blockNo == 0
    ensures docs != [] ==> Start(blockNo, size) < |docs| <= Start(blockNo + 1, size)
    ensures forall k: nat :: k in blocks <==> docs != [] && k <= blockNo
    ensures Holds(blocks, docs, size)
  {
  }

  /** The last block's number is that of the last document, (n - 1) / size. */
  lemma LastBlock(b: nat, size: nat, n: nat)
    requires size > 0 && Start(b, size) < n <= Start(b + 1, size)
    ensures b == (n - 1) / size
  {
    BlockPosition(b, size, n - 1);
  }

  /** The blocks the block loop leaves: one per non-empty run of size documents, holding
      that run's dictionary. */
  ghost function Created(docs: seq<Doc>, size: nat): map<nat, Dict>
  {
    map k: nat | k < |docs| && Start(k, size) < |docs| :: BlockOf(docs, size, k)
  }

  lemma {:induction false} StartMonotone(j: nat, k: nat, size: nat)
    requires j <= k
    ensures Start(j, size) <= Start(k, size)
    decreases k
  {
    if j < k {
      StartMonotone(j, k - 1, size);
    }
  }

  lemma {:induction false} StartAtLeast(k: nat, size: nat)
    requires size > 0
    ensures k <= Start(k, size)
  {
    if k > 0 {
      StartAtLeast(k - 1, size);
    }
  }

  /** What the block loop ends with is exactly Created. */
  lemma CreatedBlocks(blocks: map<nat, Dict>, blockNo: nat, docs: seq<Doc>, size: nat)
    requires size > 0 && docs != [] && Start(blockNo, size) < |docs| <= Start(blockNo + 1, size)
    requires forall k: nat :: k in blocks <==> k <= blockNo
    requires Holds(blocks, docs, size)
    ensures blocks == Created(docs, size)
  {
    CreatedKeys(blocks, blockNo, docs, size);
    CreatedValues(blocks, docs, size);
  }

  lemma CreatedKeys(blocks: map<nat, Dict>, blockNo: nat, docs: seq<Doc>, size: nat)
    requires size > 0 && Start(blockNo, size) < |docs| <= Start(blockNo + 1, size)
    requires forall k: nat :: k in blocks <==> k <= blockNo
    ensures blocks.Keys == Created(docs, size).Keys
  {
    forall k: nat ensures k in blocks <==> k in Created(docs, size) {
      CreatedHas(blockNo, docs, size, k);
    }
  }

  lemma CreatedValues(blocks: map<nat, Dict>, docs: seq<Doc>, size: nat)
    requires Holds(blocks, docs, size)
    ensures forall k :: k in blocks && k in Created(docs, size) ==> Created(docs, size)[k] == blocks[k]
  {
    forall k: nat | k in blocks && k in Created(docs, size) ensures Created(docs, size)[k] == blocks[k] {
      HoldsAt(blocks, docs, size, k);
    }
  }

  /** Block k is created exactly when k <= the last block's number. */
  lemma CreatedHas(blockNo: nat, docs: seq<Doc>, size: nat, k: nat)
    requires size > 0 && Start(blockNo, size) < |docs| <= Start(blockNo + 1, size)
    ensures k < |docs| && Start(k, size) < |docs| <==> k <= blockNo
  {
    StartAtLeast(k, size);
    if k <= blockNo {
      StartMonotone(k, blockNo, size);
    } else {
      StartMonotone(blockNo + 1, k, size);
    }
  }

  // ---------------------------------------------------------------- merge_blocks_on_disk

  /** Block k, when stored, is well formed and has no empty list. */
  predicate BlockOk(b: map<nat, Dict>, k: nat)
  {
    k in b ==> DictOk(b[k]) && NonEmptyLists(b[k])
  }

  /** Every stored block is well formed and has no empty list. */
  ghost predicate BlocksOk(b: map<nat, Dict>)
  {
    forall k: nat :: BlockOk(b, k)
  }

  /** Storing a well-formed dictionary keeps the blocks well formed. */
  lemma BlocksStore(b: map<nat, Dict>, no: nat, d: Dict)
    requires BlocksOk(b) && DictOk(d) && NonEmptyLists(d)
    ensures BlocksOk(b[no := d])
  {
    var c := b[no := d];
    forall k: nat ensures BlockOk(c, k) {
      assert BlockOk(b, k);
    }
  }

  /** Removing blocks keeps the rest well formed. */
  lemma BlocksRemove(b: map<nat, Dict>, gone: set<nat>)
    requires BlocksOk(b)
    ensures BlocksOk(b - gone)
  {
    var c := b - gone;
    forall k: nat ensures BlockOk(c, k) {
      assert BlockOk(b, k);
    }
  }

  /** No stored block number exceeds n. */
  predicate Below(b: map<nat, Dict>, n: nat)
  {
    forall k :: k in b ==> k <= n
  }

  /** Blocks start .. end are stored (and block start even when the range is empty). */
  predicate Stored(b: map<nat, Dict>, start: nat, end: nat)
  {
    start in b && forall k: nat :: start <= k <= end ==> k in b
  }

  /** Block k's dictionary, empty when there is no such block. */
  function Get(b: map<nat, Dict>, k: nat): Dict
  {
    if k in b then b[k] else EmptyDict
  }

  /** `mid = (start + end) // 2` (index.py:124): a split point inside the range. */
  function Mid(start: nat, end: nat): (mid: nat)
    requires start < end
    ensures start <= mid < end
  {
    (start + end) / 2
  }

  /** The dictionary `merge_blocks_on_disk(start, end)` (index.py:122-131) leaves: block
      start alone when end - start < 1, otherwise the merge of the two halves' results, split
      at mid = (start + end) // 2. */
  function TreeMerge(b: map<nat, Dict>, start: nat, end: nat): Dict
    decreases end - start
  {
    if start < end then
      var mid := Mid(start, end);
      MergeDicts(TreeMerge(b, start, mid), TreeMerge(b, mid + 1, end))
    else Get(b, start)
  }

  /** Merging well-formed blocks gives a well-formed dictionary with no empty list. */
  lemma {:induction false} TreeMergeOk(b: map<nat, Dict>, start: nat, end: nat)
    requires BlocksOk(b)
    ensures DictOk(TreeMerge(b, start, end)) && NonEmptyLists(TreeMerge(b, start, end))
    decreases end - start
  {
    if start < end {
      var mid := Mid(start, end);
      TreeMergeOk(b, start, mid);
      TreeMergeOk(b, mid + 1, end);
      MergeDictsMeaning(TreeMerge(b, start, mid), TreeMerge(b, mid + 1, end));
    } else {
      assert BlockOk(b, start);
    }
  }

  /** The ids of term t in blocks lo .. hi - 1 together, counted with repetition. */
  function RangeIds(b: map<nat, Dict>, lo: nat, hi: nat, t: string): multiset<int>
    decreases hi
  {
    if hi <= lo then multiset{} else RangeIds(b, lo, hi - 1, t) + Occurrences(Get(b, hi - 1), t)
  }

  /** The ids of a range are those of its two parts. */
  lemma {:induction false} RangeSplit(b: map<nat, Dict>, lo: nat, mid: nat, hi: nat, t: string)
    requires lo <= mid <= hi
    ensures RangeIds(b, lo, hi, t) == RangeIds(b, lo, mid, t) + RangeIds(b, mid, hi, t)
    decreases hi
  {
    if hi > mid {
      RangeSplit(b, lo, mid, hi - 1, t);
    }
  }

  /** Nothing is dropped and nothing added, for one term t: the merged dictionary holds
      exactly the ids of t that blocks start .. end hold together. */
  lemma {:induction false} TreeMergeCount(b: map<nat, Dict>, start: nat, end: nat, t: string)
    requires BlocksOk(b) && start <= end
    ensures Occurrences(TreeMerge(b, start, end), t) == RangeIds(b, start, end + 1, t)
    decreases end - start
  {
    if start < end {
      var mid := Mid(start, end);
      TreeMergeCount(b, start, mid, t);
      TreeMergeCount(b, mid + 1, end, t);
      CountSplit(b, start, end, t);
    } else {
      assert RangeIds(b, start, start, t) == multiset{};
    }
  }

  /** If each half of the range holds its blocks' ids of t, so does their merge. */
  lemma CountSplit(b: map<nat, Dict>, start: nat, end: nat, t: string)
    requires BlocksOk(b) && start < end
    requires Occurrences(TreeMerge(b, start, Mid(start, end)), t) == RangeIds(b, start, Mid(start, end) + 1, t)
    requires Occurrences(TreeMerge(b, Mid(start, end) + 1, end), t) == RangeIds(b, Mid(start, end) + 1, end + 1, t)
    ensures Occurrences(TreeMerge(b, start, end), t) == RangeIds(b, start, end + 1, t)
  {
    CountStep(b, start, end, t);
    RangeSplit(b, start, Mid(start, end) + 1, end + 1, t);
  }

  /** One merge adds up the two halves' ids of t. */
  lemma CountStep(b: map<nat, Dict>, start: nat, end: nat, t: string)
    requires BlocksOk(b) && start < end
    ensures Occurrences(TreeMerge(b, start, end), t)
            == Occurrences(TreeMerge(b, start, Mid(start, end)), t) + Occurrences(TreeMerge(b, Mid(start, end) + 1, end), t)
  {
    var mid := Mid(start, end);
    TreeMergeOk(b, start, mid);
    TreeMergeOk(b, mid + 1, end);
    MergeDictsCount(TreeMerge(b, start, mid), TreeMerge(b, mid + 1, end), t);
  }

  /** Nothing is dropped and nothing added, for every term; an empty range leaves block
      start as it is. */
  lemma TreeMergeCounts(b: map<nat, Dict>, start: nat, end: nat)
    requires BlocksOk(b)
    ensures forall t :: Occurrences(TreeMerge(b, start, end), t) == RangeIds(b, start, if end < start then start + 1 else end + 1, t)
  {
    forall t ensures Occurrences(TreeMerge(b, start, end), t) == RangeIds(b, start, if end < start then start + 1 else end + 1, t) {
      if end < start {
        assert RangeIds(b, start, start, t) == multiset{};
      } else {
        TreeMergeCount(b, start, end, t);
      }
    }
  }

  /** A term is in the merged dictionary exactly when some block of the range has it. */
  lemma TreeMergeTerms(b: map<nat, Dict>, start: nat, end: nat)
    requires BlocksOk(b) && start <= end
    ensures forall t :: t in TreeMerge(b, start, end).lists <==> exists k :: start <= k <= end && t in Get(b, k).lists
  {
    forall t ensures t in TreeMerge(b, start, end).lists <==> exists k :: start <= k <= end && t in Get(b, k).lists {
      TreeMergeHas(b, start, end, t);
    }
  }

  /** TreeMergeTerms for one term. */
  lemma TreeMergeHas(b: map<nat, Dict>, start: nat, end: nat, t: string)
    requires BlocksOk(b) && start <= end
    ensures t in TreeMerge(b, start, end).lists <==> exists k :: start <= k <= end && t in Get(b, k).lists
  {
    TreeMergeOk(b, start, end);
    HeldIffListed(TreeMerge(b, start, end), t);
    TreeMergeCount(b, start, end, t);
    RangeHas(b, start, end + 1, t);
  }

  /** The ids of t over a range are none exactly when no block of the range has t. */
  lemma {:induction false} RangeHas(b: map<nat, Dict>, lo: nat, hi: nat, t: string)
    requires BlocksOk(b)
    ensures RangeIds(b, lo, hi, t) != multiset{} <==> exists k :: lo <= k < hi && t in Get(b, k).lists
    decreases hi
  {
    if hi > lo {
      RangeHas(b, lo, hi - 1, t);
      var d := Get(b, hi - 1);
      assert BlockOk(b, hi - 1);
      if t in d.lists {
        assert d.lists[t][0] in Occurrences(d, t);
      }
    }
  }

  /** Only the blocks of the range matter. */
  lemma {:induction false} TreeMergeFrame(b: map<nat, Dict>, c: map<nat, Dict>, start: nat, end: nat)
    requires Get(b, start) == Get(c, start) && forall k: nat :: start <= k <= end ==> Get(b, k) == Get(c, k)
    ensures TreeMerge(b, start, end) == TreeMerge(c, start, end)
    decreases end - start
  {
    if start < end {
      var mid := Mid(start, end);
      TreeMergeFrame(b, c, start, mid);
      TreeMergeFrame(b, c, mid + 1, end);
    }
  }

  /** What `merge_blocks_on_disk(start, end)` did, from blocks b0 with counter n0 to blocks
      b1 with counter n1, returning no: block no holds the range's merged dictionary; with
      an empty range nothing changed and no is start; otherwise end - start merges each took
      a new number and no is the last; the range's blocks and the intermediate results are
      gone; every other block is untouched. */
  ghost predicate Merged(b0: map<nat, Dict>, n0: nat, b1: map<nat, Dict>, n1: nat, start: nat, end: nat, no: nat)
  {
    && no in b1 && b1[no] == TreeMerge(b0, start, end)
    && (end <= start ==> no == start && b1 == b0 && n1 == n0)
    && (start < end ==> no == n1 && n1 == n0 + (end - start))
    && RangeReplaced(b0, b1, start, end, no)
    && Untouched(b0, b1, no)
  }

  /** Merging every block 0 .. last of b0 leaves only the merged block. */
  lemma MergedWhole(b0: map<nat, Dict>, last: nat, b1: map<nat, Dict>, no: nat)
    requires forall k: nat :: k in b0 <==> k <= last
    requires no in b1 && b1[no] == TreeMerge(b0, 0, last) && RangeReplaced(b0, b1, 0, last, no)
    ensures b1 == map[no := TreeMerge(b0, 0, last)]
  {
  }

  /** The blocks of b1 are block no and those of b0 outside start .. end. */
  ghost predicate RangeReplaced(b0: map<nat, Dict>, b1: map<nat, Dict>, start: nat, end: nat, no: nat)
  {
    forall k :: k in b1 <==> k == no || (k in b0 && !(start <= k <= end))
  }

  /** Every block of b1 other than no is as it was in b0. */
  ghost predicate Untouched(b0: map<nat, Dict>, b1: map<nat, Dict>, no: nat)
  {
    forall k :: k in b1 && k != no ==> k in b0 && b1[k] == b0[k]
  }

  /** An empty range leaves everything as it is and returns start. */
  lemma NothingMerged(b: map<nat, Dict>, n: nat, start: nat, end: nat)
    requires end <= start && start in b
    ensures Merged(b, n, b, n, start, end, start)
  {
  }

  /** The counter never goes down and stays above every block; the resulting block is
      start itself or a number b0 did not use. */
  lemma MergedBelow(b0: map<nat, Dict>, n0: nat, b1: map<nat, Dict>, n1: nat, start: nat, end: nat, no: nat)
    requires Below(b0, n0) && start <= n0 && Merged(b0, n0, b1, n1, start, end, no)
    ensures Below(b1, n1) && n0 <= n1 && start <= n1
    ensures no == start || no !in b0
  {
  }

  /** After the left half, the right half's blocks are still stored, unchanged. */
  lemma LeftHalfDone(b0: map<nat, Dict>, n0: nat, b1: map<nat, Dict>, n1: nat, start: nat, mid: nat, end: nat, left: nat)
    requires start <= mid < end && Below(b0, n0) && Stored(b0, start, end)
    requires Merged(b0, n0, b1, n1, start, mid, left)
    ensures Stored(b1, mid + 1, end) && forall k: nat :: mid + 1 <= k <= end ==> b1[k] == b0[k]
    ensures Below(b1, n1) && mid + 1 <= n1 && (left == start || left !in b0)
  {
    assert end in b0;
    MergedBelow(b0, n0, b1, n1, start, mid, left);
  }

  /** The block sets of the two halves compose into the whole range's. */
  lemma KeysCompose(b0: map<nat, Dict>, b1: map<nat, Dict>, b2: map<nat, Dict>, n2: nat, d: Dict,
                    start: nat, mid: nat, end: nat, left: nat, right: nat)
    requires start <= mid < end && Below(b2, n2) && left in b2 && right in b2
    requires left == start || left !in b0
    requires right == mid + 1 || right !in b1
    requires RangeReplaced(b0, b1, start, mid, left) && RangeReplaced(b1, b2, mid + 1, end, right)
    ensures RangeReplaced(b0, b2[n2 + 1 := d] - {left, right}, start, end, n2 + 1)
  {
  }

  /** Untouched blocks compose the same way. */
  lemma UntouchedCompose(b0: map<nat, Dict>, b1: map<nat, Dict>, b2: map<nat, Dict>, n2: nat, d: Dict, left: nat, right: nat)
    requires Untouched(b0, b1, left) && Untouched(b1, b2, right)
    ensures Untouched(b0, b2[n2 + 1 := d] - {left, right}, n2 + 1)
  {
  }

  /** Both halves done: the two results are distinct stored blocks below the counter, and
      storing their merge as the next block and removing them is the whole range's merge. */
  lemma HalvesDone(b0: map<nat, Dict>, n0: nat, b1: map<nat, Dict>, n1: nat, b2: map<nat, Dict>, n2: nat,
                   start: nat, end: nat, left: nat, right: nat)
    requires start < end && Below(b0, n0) && Stored(b0, start, end) && Below(b2, n2)
    requires Merged(b0, n0, b1, n1, start, Mid(start, end), left)
    requires Merged(b1, n1, b2, n2, Mid(start, end) + 1, end, right)
    ensures left in b2 && right in b2 && left != right
    ensures Merged(b0, n0, b2[n2 + 1 := MergeDicts(b2[left], b2[right])] - {left, right}, n2 + 1, start, end, n2 + 1)
  {
    var mid := Mid(start, end);
    LeftHalfDone(b0, n0, b1, n1, start, mid, end, left);
    TreeMergeFrame(b1, b0, mid + 1, end);
    assert end in b0;
    MergedBelow(b1, n1, b2, n2, mid + 1, end, right);
    var d := MergeDicts(b2[left], b2[right]);
    KeysCompose(b0, b1, b2, n2, d, start, mid, end, left, right);
    UntouchedCompose(b0, b1, b2, n2, d, left, right);
  }

  // ---------------------------------------------------------------- write_dictionary_postings_to_disk

  /** `str(get_skip_pointers(postings_list))` for term t of dictionary d (index.py:185).
      (A term of a well-formed block always has a non-empty list; the test only makes the
      function total.) */
  function Encoded(encode: seq<Entry> -> string, d: Dict, t: string): string
  {
    if t in d.lists && d.lists[t] != [] then encode(SkipList(d.lists[t])) else ""
  }

  /** The postings file after the first n terms of ks (index.py:187-195): per term, the
      term and a space, its encoded list, and a newline. */
  function Postings(encode: seq<Entry> -> string, d: Dict, ks: seq<string>, n: nat): string
    requires n <= |ks|
  {
    if n == 0 then ""
    else Postings(encode, d, ks, n - 1) + ks[n - 1] + " " + Encoded(encode, d, ks[n - 1]) + "\n"
  }

  /** The position `tell()` reports once term i and its space are written (index.py:189). */
  function Offset(encode: seq<Entry> -> string, d: Dict, ks: seq<string>, i: nat): nat
    requires i < |ks|
  {
    |Postings(encode, d, ks, i)| + |ks[i]| + 1
  }

  /** What one dictionary line records (index.py:198): a term, the length of its encoded
      list, and the offset of that list in the postings file. */
  datatype DictEntry = DictEntry(term: string, length: nat, offset: nat)

  /** The line written for term i of ks. */
  function EntryOf(encode: seq<Entry> -> string, d: Dict, ks: seq<string>, i: nat): DictEntry
    requires i < |ks|
  {
    DictEntry(ks[i], |Encoded(encode, d, ks[i])|, Offset(encode, d, ks, i))
  }

  /** The dictionary lines for the first n terms of ks. */
  function Lines(encode: seq<Entry> -> string, d: Dict, ks: seq<string>, n: nat): seq<DictEntry>
    requires n <= |ks|
  {
    if n == 0 then [] else Lines(encode, d, ks, n - 1) + [EntryOf(encode, d, ks, n - 1)]
  }

  /** There is one line per term, and line i is term i's. */
  lemma {:induction false} LinesAt(encode: seq<Entry> -> string, d: Dict, ks: seq<string>, n: nat, i: nat)
    requires i < n <= |ks|
    ensures |Lines(encode, d, ks, n)| == n && Lines(encode, d, ks, n)[i] == EntryOf(encode, d, ks, i)
    decreases n
  {
    if i < n - 1 {
      LinesAt(encode, d, ks, n - 1, i);
    } else if n > 1 {
      LinesAt(encode, d, ks, n - 1, 0);
    }
  }

  /** The text of one dictionary line: the fields separated by spaces, the numbers in
      decimal. */
  function DictLine(e: DictEntry): string
  {
    e.term + " " + Decimal(e.length) + " " + Decimal(e.offset) + "\n"
  }

  /** The text of the dictionary lines, in order. */
  function Render(es: seq<DictEntry>): string
  {
    if es == [] then "" else Render(es[..|es| - 1]) + DictLine(es[|es| - 1])
  }

  /** The postings text of fewer terms is a prefix of the text of more. */
  lemma {:induction false} PostingsPrefix(encode: seq<Entry> -> string, d: Dict, ks: seq<string>, j: nat, n: nat)
    requires j <= n <= |ks|
    ensures Postings(encode, d, ks, j) <= Postings(encode, d, ks, n)
    decreases n
  {
    if j < n {
      PostingsPrefix(encode, d, ks, j, n - 1);
    }
  }

  /** In text p, offset o is where list e starts, right after term t and a space and right
      before a newline. */
  predicate RecordAt(p: string, o: nat, t: string, e: string)
  {
    && |t| + 1 <= o && o + |e| < |p|
    && p[o - |t| - 1 .. o] == t + " "
    && p[o .. o + |e|] == e
    && p[o + |e|] == '\n'
  }

  /** Each recorded offset points at the first character of the term's encoded list, which
      is preceded by the term and a space and followed by a newline. */
  lemma OffsetPoints(encode: seq<Entry> -> string, d: Dict, ks: seq<string>, i: nat)
    requires i < |ks|
    ensures |Lines(encode, d, ks, |ks|)| == |ks|
    ensures var e := Lines(encode, d, ks, |ks|)[i];
      && e.term == ks[i] && e.length == |Encoded(encode, d, ks[i])|
      && RecordAt(Postings(encode, d, ks, |ks|), e.offset, e.term, Encoded(encode, d, e.term))
  {
    LinesAt(encode, d, ks, |ks|, i);
    RecordIn(encode, d, ks, i);
  }

  /** Term i's record lies at its offset in the whole postings text. */
  lemma RecordIn(encode: seq<Entry> -> string, d: Dict, ks: seq<string>, i: nat)
    requires i < |ks|
    ensures RecordAt(Postings(encode, d, ks, |ks|), Offset(encode, d, ks, i), ks[i], Encoded(encode, d, ks[i]))
  {
    var before, e := Postings(encode, d, ks, i), Encoded(encode, d, ks[i]);
    assert Postings(encode, d, ks, i + 1) == before + ks[i] + " " + e + "\n";
    PostingsPrefix(encode, d, ks, i + 1, |ks|);
    Framed(Postings(encode, d, ks, |ks|), before, ks[i], e);
  }

  /** Where a term's record lies in any text that starts with it. */
  lemma Framed(p: string, before: string, t: string, e: string)
    requires before + t + " " + e + "\n" <= p
    ensures RecordAt(p, |before| + |t| + 1, t, e)
  {
    var u := before + t + " " + e + "\n";
    var o := |before| + |t| + 1;
    assert p[..|u|] == u;
    assert u[o - |t| - 1 .. o] == t + " ";
    assert u[o .. o + |e|] == e;
    assert u[o + |e|] == '\n';
  }

  // ---------------------------------------------------------------- the indexer's state

  class BlockIndexer {
    /** The `blocks/` directory: block number -> stored dictionary. */
    var blocks: map<nat, Dict>
    /** The global `block_no` (index.py:40). */
    var blockNo: nat
    /** The in-memory `index` of the block being built. */
    var memIndex: Dict
    /** The postings file and the dictionary file. */
    var postings: string
    var dictionary: string
    /** `str` of a skip list, and `str` of the set of document ids. */
    const encode: seq<Entry> -> string
    const encodeIds: set<int> -> string

    /** Every stored block and the in-memory index are well formed, no list is empty, and
        no block number exceeds the counter. */
    ghost predicate Valid()
      reads this
    {
      Below(blocks, blockNo) && BlocksOk(blocks) && DictOk(memIndex) && NonEmptyLists(memIndex)
    }

    /** A fresh run: an emptied `blocks/` directory (index.py:58-60), `block_no` at 0, empty
        output files. */
    constructor (encode: seq<Entry> -> string, encodeIds: set<int> -> string)
      ensures Valid()
      ensures blocks == map[] && blockNo == 0 && memIndex == EmptyDict
      ensures postings == "" && dictionary == ""
      ensures this.encode == encode && this.encodeIds == encodeIds
    {
      blocks := map[];
      blockNo := 0;
      memIndex := EmptyDict;
      postings := "";
      dictionary := "";
      this.encode := encode;
      this.encodeIds := encodeIds;
    }

    /** `index_file`'s word loop (index.py:102-110) on the in-memory index. */
    method IndexFile(words: seq<string>, docId: int)
      requires Valid()
      modifies this
      ensures Valid()
      ensures memIndex == IndexWords(old(memIndex), words, docId)
      ensures blocks == old(blocks) && blockNo == old(blockNo)
      ensures postings == old(postings) && dictionary == old(dictionary)
    {
      for i := 0 to |words|
        invariant memIndex == IndexWords(old(memIndex), words[..i], docId)
        invariant blocks == old(blocks) && blockNo == old(blockNo)
        invariant postings == old(postings) && dictionary == old(dictionary)
      {
        assert words[..i + 1][..i] == words[..i];
        var word := words[i];
        if word in memIndex.lists {
          if docId !in memIndex.lists[word] {
            memIndex := Dict(memIndex.keys, memIndex.lists[word := memIndex.lists[word] + [docId]]);
          }
        } else {
          memIndex := Dict(memIndex.keys + [word], memIndex.lists[word := [docId]]);
        }
      }
      assert words[..|words|] == words;
      IndexWordsMeaning(old(memIndex), words, docId);
    }

    /** `write_block_to_disk` (index.py:112-120): store the index as block no. */
    method WriteBlockToDisk(index: Dict, no: nat)
      requires Valid() && DictOk(index) && NonEmptyLists(index) && no <= blockNo
      modifies this
      ensures Valid()
      ensures blocks == old(blocks)[no := SortedDict(index)]
      ensures blockNo == old(blockNo) && memIndex == old(memIndex)
      ensures postings == old(postings) && dictionary == old(dictionary)
    {
      SortedDictOk(index);
      BlocksStore(blocks, no, SortedDict(index));
      blocks := blocks[no := SortedDict(index)];
    }

    /** The flush test `i % BLOCK_SIZE == BLOCK_SIZE - 1` (index.py:77) holds exactly for
        the document that completes block b. */
    static method EndsBlock(b: nat, size: nat, i: nat) returns (full: bool)
      requires size > 0 && Start(b, size) <= i < Start(b + 1, size)
      ensures full <==> i + 1 == Start(b + 1, size)
    {
      BlockPosition(b, size, i);
      full := i % size == size - 1;
    }

    /** The first loop of `merge` (index.py:145-156): every term of the right block, with
        its list sorted together with the left block's list when the left block has the
        term too, in the right block's order. */
    static method RightPass(l: Dict, r: Dict) returns (merged: Dict)
      requires DictOk(r)
      ensures merged == MergeRight(l, r, r.keys)
    {
      merged := EmptyDict;
      for i := 0 to |r.keys|
        invariant merged == MergeRight(l, r, r.keys[..i])
      {
        var term := r.keys[i];
        assert r.keys[..i + 1][..i] == r.keys[..i];
        if term in l.lists {
          merged := Put(merged, term, SortIds(l.lists[term] + r.lists[term]));
        } else {
          merged := Put(merged, term, r.lists[term]);
        }
      }
      assert r.keys[..|r.keys|] == r.keys;
    }

    /** The second loop of `merge` (index.py:157-160): every left term not yet present,
        with its own list, in the left block's order. */
    static method LeftPass(m: Dict, l: Dict) returns (merged: Dict)
      requires DictOk(l)
      ensures merged == MergeLeft(m, l, l.keys)
    {
      merged := m;
      for j := 0 to |l.keys|
        invariant merged == MergeLeft(m, l, l.keys[..j])
      {
        var term := l.keys[j];
        assert l.keys[..j + 1][..j] == l.keys[..j];
        if term !in merged.lists {
          merged := Put(merged, term, l.lists[term]);
        }
      }
      assert l.keys[..|l.keys|] == l.keys;
    }

    /** `merge` (index.py:134-174): build the merged dictionary of blocks left and right
        (the right block's terms first, then the left block's other terms), store it under
        the next block number, delete the two blocks, and return the new number. */
    method Merge(left: nat, right: nat) returns (no: nat)
      requires Valid() && left in blocks && right in blocks && left != right
      modifies this
      ensures Valid()
      ensures no == old(blockNo) + 1 && blockNo == no
      ensures blocks == old(blocks)[no := MergeDicts(old(blocks)[left], old(blocks)[right])] - {left, right}
      ensures memIndex == old(memIndex) && postings == old(postings) && dictionary == old(dictionary)
    {
      var l, r := blocks[left], blocks[right];
      assert BlockOk(blocks, left) && BlockOk(blocks, right);
      var rightPass := RightPass(l, r);
      var merged := LeftPass(rightPass, l);
      MergeDictsMeaning(l, r);
      BlocksStore(blocks, blockNo + 1, merged);
      BlocksRemove(blocks[blockNo + 1 := merged], {left, right});
      blockNo := blockNo + 1;
      blocks := blocks[blockNo := merged];
      blocks := blocks - {left, right};
      no := blockNo;
    }

    /** `merge_blocks_on_disk` (index.py:122-131): merge blocks start .. end pairwise,
        halves first, into one block, and return its number. */
    method MergeBlocksOnDisk(start: nat, end: nat) returns (no: nat)
      requires Valid() && Stored(blocks, start, end)
      modifies this
      ensures Valid() && Merged(old(blocks), old(blockNo), blocks, blockNo, start, end, no)
      ensures memIndex == old(memIndex) && postings == old(postings) && dictionary == old(dictionary)
      decreases end - start
    {
      if end - start >= 1 {
        var mid := Mid(start, end);
        ghost var b0, n0 := blocks, blockNo;
        var left := MergeBlocksOnDisk(start, mid);
        ghost var b1, n1 := blocks, blockNo;
        LeftHalfDone(b0, n0, b1, n1, start, mid, end, left);
        var right := MergeBlocksOnDisk(mid + 1, end);
        ghost var b2, n2 := blocks, blockNo;
        HalvesDone(b0, n0, b1, n1, b2, n2, start, end, left, right);
        no := Merge(left, right);
        assert blocks == b2[n2 + 1 := MergeDicts(b2[left], b2[right])] - {left, right};
      } else {
        no := start;
        NothingMerged(blocks, blockNo, start, end);
      }
    }

    /** The block loop's invariant, over this indexer's state. */
    ghost predicate Progress(docs: seq<Doc>, size: nat, i: nat)
      reads this
    {
      Valid() && Loop(blocks, blockNo, memIndex, docs, size, i)
    }

    /** The block loop of `build_index` (index.py:70-82): index each document, and flush
        the in-memory index as block `block_no` after every size-th document and after the
        last, moving to the next block number unless the document was the last. Returns
        the set of document ids (`doc_id_set`). */
    method CreateBlocks(docs: seq<Doc>, size: nat) returns (docIds: set<int>)
      requires Valid() && size > 0 && blocks == map[] && blockNo == 0 && memIndex == EmptyDict
      modifies this
      ensures Valid() && memIndex == EmptyDict
      ensures docIds == Ids(docs)
      ensures docs == [] ==> blocks == map[] && blockNo == 0
      ensures docs != [] ==> Start(blockNo, size) < |docs| <= Start(blockNo + 1, size)
      ensures forall k: nat :: k in blocks <==> docs != [] && k <= blockNo
      ensures Holds(blocks, docs, size)
      ensures postings == old(postings) && dictionary == old(dictionary)
    {
      docIds := {};
      LoopStart(docs, size);
      for i := 0 to |docs|
        invariant Progress(docs, size, i)
        invariant docIds == Ids(docs[..i])
        invariant postings == old(postings) && dictionary == old(dictionary)
      {
        IdsSnoc(docs, i);
        docIds := docIds + {docs[i].id};
        BlockStep(docs, size, i);
      }
      assert docs[..|docs|] == docs;
      LoopDone(blocks, blockNo, memIndex, docs, size);
    }

    /** One pass of the block loop: document i is indexed, then flushed with its block if
        it ends one. */
    method BlockStep(docs: seq<Doc>, size: nat, i: nat)
      requires size > 0 && i < |docs| && Progress(docs, size, i)
      modifies this
      ensures Progress(docs, size, i + 1)
      ensures postings == old(postings) && dictionary == old(dictionary)
    {
      var doc := docs[i];
      var full := EndsBlock(blockNo, size, i);
      IndexFile(doc.words, doc.id);
      if full || i == |docs| - 1 {
        WriteBlockToDisk(memIndex, blockNo);
        memIndex := EmptyDict;
        if i != |docs| - 1 {
          blockNo := blockNo + 1;
        }
        LoopFlush(old(blocks), old(blockNo), old(memIndex), docs, size, i);
      } else {
        LoopIndex(old(blocks), old(blockNo), old(memIndex), docs, size, i);
      }
    }

    /** `write_dictionary_postings_to_disk` (index.py:176-200): for every term of block
        number, in the block's key order, write the term, a space, the encoded skip list
        and a newline to the postings file, and the term, the encoded list's length and its
        offset to the dictionary file; then write the set of document ids. Both files
        start empty. */
    method WriteDictionaryPostings(number: nat, docIds: set<int>)
      requires Valid() && number in blocks
      modifies this
      ensures Valid() && blocks == old(blocks) && blockNo == old(blockNo) && memIndex == old(memIndex)
      ensures var d := blocks[number];
        && postings == Postings(encode, d, d.keys, |d.keys|)
        && dictionary == Render(Lines(encode, d, d.keys, |d.keys|)) + encodeIds(docIds)
    {
      var d := blocks[number];
      assert BlockOk(blocks, number);
      var post, lines := Layout(d);
      postings, dictionary := post, Render(lines) + encodeIds(docIds);
    }

    /** The loop of index.py:183-198 over the terms of block d, in the block's key order:
        the text it writes to the postings file and the lines it writes to the dictionary
        file, each term's offset being the postings length once the term and its space are
        written. */
    method Layout(d: Dict) returns (post: string, lines: seq<DictEntry>)
      requires forall t :: t in d.keys ==> t in d.lists && |d.lists[t]| > 0
      ensures post == Postings(encode, d, d.keys, |d.keys|)
      ensures lines == Lines(encode, d, d.keys, |d.keys|)
    {
      post, lines := "", [];
      for i := 0 to |d.keys|
        invariant post == Postings(encode, d, d.keys, i)
        invariant lines == Lines(encode, d, d.keys, i)
      {
        post, lines := WriteTerm(d, i, post, lines);
      }
    }

    /** One pass of the loop at index.py:183-198: term i's record goes to the postings
        text, and its dictionary line carries the offset `tell()` reports once the term and
        its space are written. */
    method WriteTerm(d: Dict, i: nat, post: string, lines: seq<DictEntry>) returns (post': string, lines': seq<DictEntry>)
      requires i < |d.keys| && d.keys[i] in d.lists && |d.lists[d.keys[i]]| > 0
      requires post == Postings(encode, d, d.keys, i) && lines == Lines(encode, d, d.keys, i)
      ensures post' == Postings(encode, d, d.keys, i + 1) && lines' == Lines(encode, d, d.keys, i + 1)
    {
      var term := d.keys[i];
      var enc := EncodeList(d, term);
      post' := post + term + " ";
      var ptr := |post'|;
      post' := post' + enc;
      post' := post' + "\n";
      lines' := lines + [DictEntry(term, |enc|, ptr)];
    }

    /** index.py:185: the encoded skip list of a term of block d. */
    method EncodeList(d: Dict, term: string) returns (enc: string)
      requires term in d.lists && |d.lists[term]| > 0
      ensures enc == Encoded(encode, d, term)
    {
      var list, leftover := GetSkipPointers(d.lists[term]);
      enc := encode(list.value);
    }

    /** `build_index` (index.py:46-90) on documents already read and tokenized, in
        directory order: blocks of BLOCK_SIZE documents (1 for the sample folder), their
        merge over block numbers 0 .. block_no, and the output files. With no document the
        dictionary writer opens a block file that was never written; that failure is
        `ok == false`. Otherwise final is the merged block's number, lastBlock the last
        block the loop wrote, and the output files describe the merged block. */
    method BuildIndex(docs: seq<Doc>, sampleFolder: bool) returns (ok: bool, final: nat, ghost lastBlock: nat)
      requires Valid() && blockNo == 0
      modifies this
      ensures ok <==> docs != []
      ensures !ok ==> blocks == map[] && postings == old(postings) && dictionary == old(dictionary)
      ensures ok ==> Start(lastBlock, SizeFor(sampleFolder)) < |docs| <= Start(lastBlock + 1, SizeFor(sampleFolder))
      ensures ok ==> blocks == map[final := TreeMerge(Created(docs, SizeFor(sampleFolder)), 0, lastBlock)]
      ensures ok ==> postings == Postings(encode, blocks[final], blocks[final].keys, |blocks[final].keys|)
      ensures ok ==> dictionary == Render(Lines(encode, blocks[final], blocks[final].keys, |blocks[final].keys|)) + encodeIds(Ids(docs))
    {
      var size := SizeFor(sampleFolder);
      blocks, memIndex := map[], EmptyDict;
      var docIds := CreateBlocks(docs, size);
      lastBlock := blockNo;
      if docs == [] {
        return false, 0, lastBlock;
      }
      CreatedBlocks(blocks, blockNo, docs, size);
      ghost var created := blocks;
      final := MergeBlocksOnDisk(0, blockNo);
      MergedWhole(created, lastBlock, blocks, final);
      WriteDictionaryPostings(final, docIds);
      ok := true;
    }
  }
}
