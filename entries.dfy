/** Posting-list elements as the query engine sees them: a bare document id, or a
    `[doc, index]` pair whose index is a skip pointer into the same list. */
module Entries {

  datatype Entry = Plain(doc: int) | Skip(doc: int, target: nat)

  /** The document ids of a posting list, in order, skip targets dropped. */
  function Values(l: seq<Entry>): seq<int>
  {
    seq(|l|, i requires 0 <= i < |l| => l[i].doc)
  }

  /** A list of ints as bare entries (what the merges append). */
  function Bare(s: seq<int>): seq<Entry>
  {
    seq(|s|, i requires 0 <= i < |s| => Plain(s[i]))
  }

  predicate StrictlySorted(s: seq<int>)
  {
    forall i, j :: 0 <= i < j < |s| ==> s[i] < s[j]
  }

  predicate AllPlain(l: seq<Entry>)
  {
    forall i :: 0 <= i < |l| ==> l[i].Plain?
  }

  lemma ValuesOfBare(s: seq<int>)
    ensures Values(Bare(s)) == s && AllPlain(Bare(s))
  {
  }

  lemma BareAppend(s: seq<int>, x: int)
    ensures Bare(s + [x]) == Bare(s) + [Plain(x)]
  {
    assert Bare(s + [x])[..|s|] == Bare(s);
  }

  lemma ValuesAppend(a: seq<Entry>, b: seq<Entry>)
    ensures Values(a + b) == Values(a) + Values(b)
  {
  }

  lemma ValuesSlice(l: seq<Entry>, i: nat, j: nat)
    requires i <= j <= |l|
    ensures Values(l[i..j]) == Values(l)[i..j]
  {
  }

  /** `flatten` (search.py:364-370): the document ids of the list, one per entry, in order. */
  method Flatten(l: seq<Entry>) returns (r: seq<int>)
    ensures r == Values(l)
  {
    r := [];
    for i := 0 to |l|
      invariant |r| == i
      invariant forall k :: 0 <= k < i ==> r[k] == l[k].doc
    {
      r := r + [l[i].doc];
    }
  }

  /** `get_postings_list_value` (search.py:303-309): the document id at a position, whether
      the entry there is bare or carries a skip pointer. */
  function ValueAt(l: seq<Entry>, ptr: nat): (v: int)
    requires ptr < |l|
    ensures v == Values(l)[ptr]
    ensures v in Values(l)
  {
    match l[ptr]
    case Plain(d) => d
    case Skip(d, _) => d
  }
}
