# Boolean retrieval: indexer and query engine, modelled in Dafny

The system is a small boolean-retrieval engine made of two programs.

The indexer (`index.py`) builds an index from a directory of documents:
- It reads each document, tokenizes and stems its words, and accumulates a term -> document-id index in memory.
- It flushes that index to a numbered block every `BLOCK_SIZE` documents and after the last one.
- It merges the blocks pairwise and recursively into one final block.
- It writes a postings file and a dictionary file. Each postings line is a term and its id list with skip pointers. Each dictionary line is the term, the length of the encoded list, and the list's offset in the postings file.

The searcher (`search.py`) answers boolean queries over `AND`, `OR`, `NOT` and parentheses:
- It tokenizes the query and converts it to postfix with the shunting-yard algorithm.
- It evaluates the postfix form on a stack.
- The operators use three two-cursor merges: an intersection that follows skip pointers, a union, and a negation against the list of all documents.

The model works on values where the source works on files:
- The `blocks/` directory is a map from block numbers to dictionaries.
- The postings and dictionary files are strings.
- `str()` of a list is an abstract `encode` function.
- Stemming is an abstract `normalize` function.
- A posting list entry is `Plain(doc)` or `Skip(doc, target)`. These stand for the bare id and the `[doc, ptr]` pair of the source.

Modules, one per file:
- `Entries`: posting list entries and their id projection `Values`.
- `SkipPointers`: `get_skip_pointers`.
- `SkipLoop`: the skip loop of `intersect_merge_AND` exactly as written.
- `Operators`: the precedence table.
- `QueryParser`: `split_string` and `get_postfix`.
- `Merges`: the three merges and their set-level specifications.
- `Evaluator`: `process_query`, `process_and_operator` and `process_or_operator`, plus a set-semantics reference.
- `Dicts`: ordered dictionaries and the merge of two blocks.
- `Indexer`: the `BlockIndexer` class for `build_index`, `index_file`, `write_block_to_disk`, `merge`, `merge_blocks_on_disk` and `write_dictionary_postings_to_disk`.
- `Numerals`: decimal rendering of the dictionary fields.
- `IdOrder`: when the final block's lists are strictly increasing, as the query side needs.
- `Sorting`, `Wrappers` and `Arith`: shared helpers.

## Model

| member | source | states |
|---|---|---|
| Entries.Flatten | search.py:364-370 | the result is the id projection `Values(l)`: one id per entry, in order, pairs reduced to their first element |
| Entries.ValueAt | search.py:303-309 | the id at position ptr of the list is `Values(l)[ptr]`, so it is one of the list's ids |
| SkipPointers.Isqrt | index.py:208 | `math.isqrt`: the largest r with r*r <= n |
| SkipPointers.Stride | index.py:208-210 | for n >= 1 the skip distance floor(n / isqrt(n)) is at least 1, and isqrt(n) strides fit in n |
| SkipPointers.SkipList | index.py:202-224 | the result has the input's length and projects back to the input; a one-element list becomes one bare entry; every pair's target lies in [i, n-1] and equals i exactly at the last index |
| SkipPointers.PairAt | index.py:212-221 | for n >= 2, entry i is a pair exactly when i is a multiple of the skip distance |
| SkipPointers.PairCountAtLeastIsqrt | index.py:208-227 | there are at least isqrt(n) pairs, so the counter never stays positive |
| SkipPointers.GetSkipPointers | index.py:202-229 | an empty list fails, as the division by zero at index.py:210 does; otherwise the loop returns `SkipList(l)`; the counter ends at or below zero, so the "not being used" report never fires |
| Operators.OperatorTable | search.py:13 | the only operators are OR, AND and NOT, with precedence OR < AND < NOT |
| QueryParser.Tokenize | search.py:100-120 | no token is empty or has a space; a token holding a parenthesis is that one character; the tokens joined give the input with its spaces removed |
| QueryParser.SplitString | search.py:100-120 | the character loop returns exactly `Tokenize(query)` |
| QueryParser.GetPostfix | search.py:62-97 | the loop over the tokens returns `Postfix(Tokenize(infix))`, the guarded shunting-yard result |
| QueryParser.ShuntToken | search.py:74-93 | one token of the loop does what `ShuntStep` specifies |
| QueryParser.PopWhileHigher | search.py:76-80 | the pop loop for an incoming operator ends where `PopHigher` says |
| QueryParser.PopUntilOpen | search.py:84-86 | the `)` loop pops down to the topmost `(` |
| QueryParser.PopsStrictlyHigher | search.py:76-81 | an incoming operator pops exactly the run of stacked operators of strictly higher precedence above the first one that is not; they go to the output in pop order, and the rest of the stack is unchanged |
| QueryParser.NotPopsNothing | search.py:78-79 | an incoming NOT pops nothing |
| QueryParser.EqualPrecedenceStays | search.py:78-79 | a stacked operator of equal precedence stays stacked |
| QueryParser.ShuntExit | search.py:82-91 | the run stops with `exit()` exactly when some prefix of the tokens closes more parentheses than it opens |
| QueryParser.PostfixExit | search.py:62-97 | a whole query stops with `exit()` exactly when some token prefix has negative parenthesis depth |
| QueryParser.PostfixShape | search.py:74-97 | in a successful conversion the operands appear in input order, each lower-cased then stemmed; no `)` appears; the operators are exactly those of the input |
| QueryParser.ReversePerm | search.py:95-96 | leftover operators are emitted reversed, and none is lost or added |
| QueryParser.PopHigherAsWritten | search.py:78-80 | the unguarded pop loop reads an empty stack exactly when every stacked operator outranks the incoming one; otherwise it agrees with the guarded loop |
| QueryParser.AsWrittenAgrees | search.py:74-93 | wherever the unguarded conversion does not fail on an empty stack, it equals the guarded one |
| QueryParser.AsWrittenCrashes | search.py:78 | `a AND b OR c` reads an empty operator stack when converted as written |
| QueryParser.GuardedConverts | search.py:62-97 | the guarded conversion turns `a AND b OR c` into `a b AND c OR` |
| Merges.InterMeaning | search.py:179-240 | the specification `Inter(a, b)` of a strictly increasing a is strictly increasing and holds exactly the ids in both |
| Merges.InterSymmetric | search.py:179-240 | for strictly increasing inputs the intersection does not depend on operand order |
| Merges.FollowSkips | search.py:211-221 | following skip pointers lands on a later entry whose id is still at most the other list's id, and stops only where no further in-range jump stays at or below it |
| Merges.IntersectMerge | search.py:179-240 | an empty input gives `[]`; otherwise the result is the sorted intersection of the inputs' ids, as bare ids |
| Merges.UnionMembers | search.py:261-299 | the union holds exactly the ids of either input |
| Merges.UnionSorted | search.py:261-299 | the union of strictly increasing inputs is strictly increasing |
| Merges.UnionWithEmpty | search.py:293-297 | with one input empty the other is returned verbatim, pairs included |
| Merges.UnionMerge | search.py:261-299 | the two-cursor loop returns `UnionOf(a, b)`, the merged prefix followed by the unexhausted tail verbatim |
| Merges.MinusMeaning | search.py:313-342 | the specification `Minus(u, b)` of a strictly increasing u is strictly increasing and holds exactly the ids of u not in b |
| Merges.MinusNothing | search.py:320-323 | an empty operand leaves the universe unchanged |
| Merges.Negate | search.py:313-342 | the loop returns the universe ids missing from the operand, in universe order, as bare ids |
| Evaluator.Resolve | search.py:373-378 | `posting_list_type_check` passes a list operand through and looks a term up; a term the dictionary lacks yields `[]` |
| Evaluator.ProcessAnd | search.py:156-176 | the result is `AndOf(operands)`: sort by length, then intersect left to right |
| Evaluator.IntersectAll | search.py:170-174 | the pop-and-intersect loop returns the left fold of intersections |
| Evaluator.AndMeaning | search.py:156-176 | AND's result is strictly increasing and holds exactly the ids common to every operand, with no pairs once two operands are combined |
| Evaluator.AndOfPair | search.py:134-137 | AND of two lists is the sorted intersection of their ids, whichever is shorter |
| Evaluator.ProcessOr | search.py:244-259 | the loop returns `OrFrom([], operands)` |
| Evaluator.OrMeaning | search.py:244-259 | OR's result is strictly increasing and holds exactly the ids of some operand |
| Evaluator.OrOfPair | search.py:250-259 | OR with an empty operand returns the other operand unchanged; otherwise it is `union_merge(right, left)` |
| Evaluator.CombineProcesses | search.py:134-141 | what the machine pushes for AND and OR is what the two operator functions return |
| Evaluator.StepShape | search.py:122-142 | a term pushes one entry; NOT needs one entry and replaces it; AND and OR need two and replace them by one list; entries below are untouched |
| Evaluator.StepKeepsSorted | search.py:122-142 | each step keeps every list on the stack strictly increasing |
| Evaluator.ApplyOperator | search.py:128-142 | the operator branch computes one machine step |
| Evaluator.ProcessQuery | search.py:122-147 | the loop returns `EvalQuery`: an underflow when an operator lacks operands, nothing for an empty query, else the top list with a leftover term looked up |
| Evaluator.NotIds | search.py:132-133 | NOT's ids are the universe's ids minus the operand's |
| Evaluator.RunCorresponds | search.py:122-147 | the list machine and the set machine fail together, and otherwise agree entry by entry |
| Evaluator.QueryMeaning | search.py:122-147 | a query's answer is strictly increasing and its ids are the set meaning of the query, with NOT as the complement in the universe, AND as intersection and OR as union; underflow and the empty result match the set machine |
| Dicts.HeldIffListed | index.py:102-110 | in a dictionary without empty lists, a term is a key exactly when some document id is listed for it |
| Dicts.PutMeaning | index.py:152-160 | storing a list under a term adds the term at the end of the key order if it is new, and changes no other term |
| Dicts.SortIds | index.py:151 | `sorted` yields an ordered permutation of its input |
| Dicts.MergeRightMeaning | index.py:145-155 | the first loop gives every right term, with the sorted union of both lists when the left block has it too |
| Dicts.MergeLeftMeaning | index.py:157-160 | the second loop adds each left-only term with its list and changes nothing already present |
| Dicts.MergeDictsMeaning | index.py:134-174 | the merged block holds the terms of both; a shared term gets `sorted(left + right)` and a one-sided term keeps its list; every id count is the sum of both; the key order is right keys first, then left-only keys |
| Indexer.SizeFor | index.py:52-54 | a block holds at least one document |
| Indexer.AddWordMeaning | index.py:103-110 | one word adds the document to its list, or creates the list `[doc]`, and changes no other term |
| Indexer.IndexWordsMeaning | index.py:102-110 | after a document, every word of it maps to its old list extended by the document once; other terms are unchanged |
| Indexer.GrownOnce | index.py:105-107 | a list that lacked the document holds it exactly once afterwards, and keeps its previous ids as a prefix |
| Indexer.SortedDictOk | index.py:115-117 | a written block has the same lists with the keys in lexicographic order |
| Indexer.LoopDone | index.py:70-82 | after the block loop the in-memory index is empty; the blocks are numbered 0..block_no with no gap; block k holds the sorted index of documents k*size up to the next block's start; no documents means no blocks |
| Indexer.TreeMergeCount | index.py:122-131 | the merged dictionary of a range lists each term's ids as often as all blocks of the range together |
| Indexer.TreeMergeTerms | index.py:122-131 | a term is in the merged dictionary of a range exactly when some block of the range has it |
| Indexer.OffsetPoints | index.py:183-198 | each dictionary line's offset points at its term's encoded list in the postings text, preceded by `term + " "` and followed by a newline; its second field is the encoded length |
| Indexer.BlockIndexer.constructor | index.py:58-62 | a fresh run starts with no blocks, `block_no` 0 and an empty in-memory index |
| Indexer.BlockIndexer.IndexFile | index.py:94-110 | the in-memory index becomes `IndexWords` of the old one; nothing else changes |
| Indexer.BlockIndexer.WriteBlockToDisk | index.py:112-120 | block no is stored with sorted keys; no other block changes |
| Indexer.BlockIndexer.EndsBlock | index.py:77 | the test `i % BLOCK_SIZE == BLOCK_SIZE - 1` holds exactly at the last document of the current block |
| Indexer.BlockIndexer.RightPass | index.py:145-155 | the first merge loop computes `MergeRight` over the right block's keys |
| Indexer.BlockIndexer.LeftPass | index.py:157-160 | the second merge loop computes `MergeLeft` over the left block's keys |
| Indexer.BlockIndexer.Merge | index.py:134-174 | `block_no` goes up by one and is returned; the merged block is stored under it; both inputs are removed; all other blocks are untouched |
| Indexer.BlockIndexer.MergeBlocksOnDisk | index.py:122-131 | a range of one block returns start and changes nothing; otherwise it performs end - start merges, so `block_no` grows by end - start and is returned; exactly one block, the merge tree of the range, replaces the range; blocks outside the range are untouched |
| Indexer.BlockIndexer.CreateBlocks | index.py:64-82 | the block loop leaves exactly blocks 0..block_no, each the sorted index of its documents; the in-memory index ends empty; the id set is every document's id |
| Indexer.BlockIndexer.BlockStep | index.py:70-82 | one iteration keeps the loop's invariant: blocks written so far, the pending index of the current block, and the ids seen |
| Indexer.BlockIndexer.Layout | index.py:183-198 | the term loop writes the postings text `Postings` and one dictionary line per term, in the block's key order |
| Indexer.BlockIndexer.WriteDictionaryPostings | index.py:176-200 | the postings text and the dictionary lines of the final block, followed by the id set; the blocks are unchanged |
| Indexer.BlockIndexer.BuildIndex | index.py:46-90 | with documents, the one remaining block is the merge tree of the blocks the loop created, and both output texts are laid out from it; with none, nothing is written |
| Numerals.Decimal | index.py:198 | `str(n)` is a non-empty run of digits with no leading zero |
| Numerals.DecimalRoundTrip | index.py:198 | reading a written dictionary field back with `int` gives the number written |
| SkipLoop.InnerAsWritten | search.py:217-221 | the inner skip loop as written, with a fuel bound: it stays in range, and it does not move when the target is not a pair at or below the bound |
| SkipLoop.AsWrittenNeverEndsEight | search.py:211-221 | for `[1..8]` against `[9]`, the loop as written never ends, though the intersection is empty |
| SkipLoop.AsWrittenNeverEndsFive | search.py:211-221 | for `[1..5]` against `[6]`, the loop as written spins on the last entry's self-pointer, though the intersection is empty |
| SkipLoop.UnionKeepsStalePointers | search.py:293-297 | `union_merge` of the lists built from 10..14 and 1..5 puts the bare ids 1..5 first and then copies the first list verbatim, so its pairs `[10, 2]`, `[12, 4]` and `[14, 4]` now point backward at bare entries |
| SkipLoop.AsWrittenNeverEndsAfterUnion | search.py:211-221 | the single id 12 intersected as written with that union never ends, though the intersection is `[12]` |
| IdOrder.WordsWithin | index.py:103-110 | reading a document whose id exceeds every id held keeps every list strictly increasing and within the ids read |
| IdOrder.IndexDocsWithin | index.py:102-110 | documents read in strictly increasing id order give an in-memory index whose lists are strictly increasing, between the first and the last id |
| IdOrder.MergeWithin | index.py:145-160 | merging a block whose ids all lie below the other block's keeps every list strictly increasing, since `sorted(left + right)` is the two lists joined |
| IdOrder.TreeWithin | index.py:122-131 | with documents read in strictly increasing id order, every range of blocks merges to strictly increasing lists within the range's ids |
| IdOrder.FinalListsIncrease | index.py:64-131 | with documents read in strictly increasing id order, every list of the final block is strictly increasing, so the index the query side decodes meets `IndexSorted` |
| IdOrder.ReadOrderKept | index.py:102-110 | files "14" then "5", both holding w, give w the list `[14, 5]` in the final block, which is not increasing |

## Left out

- Command-line parsing, usage text and progress printing are process plumbing.
- File I/O is not modelled: directory setup, `os.listdir`, reading documents, JSON dump and load of blocks, `os.remove`, and reading the dictionary, query and result files. Blocks are a map, and both output files are strings.
- Sentence and word tokenisation and the Porter stemmer come from a foreign library. A document is given as its already stemmed word sequence. The query side takes an abstract `normalize` for `stemmer.stem(token.lower())`.
- `str()` of a skip list and of the id set are the abstract functions `encode` and `encodeIds`. `eval` of a postings line is not modelled: the query side takes the decoded index as a map from terms to entry lists.
- Offsets are counted in characters. `tell()` counts bytes, which agree only for ASCII terms.
- The `seek` at index.py:193 moves to where the file already is, so it is left out.
- The dictionary file is modelled as a sequence of `DictEntry` records rendered by `Render`. `Numerals` proves that the numbers written can be read back.
- The universe-set plumbing between `str(doc_id_set)` (index.py:200) and the `all_dict` lookup (search.py:44) is not modelled. The universe is a strictly increasing sequence parameter.
- `intersect_merge_NOT` (search.py:345-360) is never called, and its order follows set iteration, so it is not modelled.
- The `temp_dict` branch of `get_postings_list` (search.py:374-375) is never used by a caller, so it is not modelled.
- The result-string building of `run_search` (search.py:51-60) is not modelled.
- Evaluator.ProcessAnd: requires at least one operand. With none, the source reads an unbound variable; its one caller always passes two.
- QueryParser.GetPostfix: `exit()` ends the whole program, including the remaining queries of the batch. The model returns `Err(Exit)` for the one query.
- Indexer.BlockIndexer.Merge: requires two distinct blocks, which every call from `merge_blocks_on_disk` satisfies.
- Indexer.BlockIndexer.BuildIndex: with no documents the source fails opening the missing block 0 at index.py:179. The model returns `ok == false` with nothing written.
- Indexer.BlockIndexer.BuildIndex: `lastBlock`, the final block number of the loop, is a ghost result used only to state the contract.
- Indexer.TreeMergeCount: counts of ids, not their order, are stated for a whole range. The order within each merged list is `sorted` and is stated per merge by Dicts.MergeDictsMeaning.
- SkipLoop.InnerAsWritten: the source loops may not terminate, so the as-written loops take a fuel bound. `None` means the fuel ran out.
- Merges.UnionMerge: a tail copied verbatim keeps its `[doc, ptr]` pairs (search.py:293-297). Their pointers index the old list, so in the result they can point backward or at a bare entry. They never leave the list, since the result is at least as long as the list they came from. The model keeps those entries as they are, and SkipLoop.AsWrittenNeverEndsAfterUnion shows an AND over such a union that never ends. Only the ids of a union are proved sorted and complete.
- Evaluator.ProcessQuery: requires `IndexSorted`, every decoded list strictly increasing, as do Evaluator.QueryMeaning and the merges. The indexer guarantees it only when documents are read in increasing id order (IdOrder.FinalListsIncrease). `os.listdir` (index.py:66) promises no order, and IdOrder.ReadOrderKept shows a final list that is not increasing.
- The stack machine's AND and OR are stated through the closed form `Combine`, and CombineProcesses ties it to `ProcessAnd` and `ProcessOr`.
- Behaviour worth noting:
  - A `(` left on the operator stack at the end is emitted into the postfix output rather than rejected.
  - The number of pairs can exceed `isqrt(n)`: it is at least that, not exactly that.
  - The last pair points at itself.
  - The dictionary's second field is the encoded length, not the document frequency.
  - The merged key order is right keys first, then left-only keys, not lexicographic.
- Integers are unbounded. Python's are too, so nothing is lost.

## Findings

| source | as written | input that shows it | evidently intended | confidence | as-written member | corrected member |
|---|---|---|---|---|---|---|
| search.py:78-80 | the pop loop reads `operators[-1]` without checking that the stack is non-empty | `a AND b OR c`: OR pops AND, then reads the empty stack (IndexError) | stop popping when the stack is empty | not executed | QueryParser.AsWrittenCrashes | QueryParser.GuardedConverts |
| search.py:211-236 | the skip loop does not advance when the skip target is a bare entry, and spins on the last entry's self-pointer | `[1..8]` against `[9]` (index 4 points at bare index 7); `[1..5]` against `[6]` (last entry `[5, 4]`) | jump while the target's id is at most the other id, always making progress | not executed | SkipLoop.AsWrittenNeverEndsEight | Merges.IntersectMerge |
| search.py:293-297 | `union_merge` copies the unexhausted tail verbatim, pairs included, so their pointers index the old list; an AND over the union then stops on a pointer that goes backward | `(x OR y) AND z` with x's list built from 10..14, y's from 1..5 and z's the single id 12: the pair `[10, 2]` now points at the bare 3 | the AND returns `[12]`, making progress whatever pointers the union carries | not executed | SkipLoop.AsWrittenNeverEndsAfterUnion | Merges.IntersectMerge |
