/** Skip-pointer construction for a final posting list (`get_skip_pointers`, index.py:202-229). */
module SkipPointers {
  import opened Wrappers
  import opened Entries
  import Arith

  /** Python's `math.isqrt`: the integer square root. */
  function Isqrt(n: nat): (r: nat)
    ensures r * r <= n < (r + 1) * (r + 1)
  {
    if n == 0 then 0
    else
      var s := Isqrt(n - 1);
      if (s + 1) * (s + 1) <= n then
        assert (s + 2) * (s + 2) == (s + 1) * (s + 1) + 2 * s + 3;
        s + 1
      else s
  }

  /** The skip distance `floor(n / isqrt(n))` of a list of n >= 1 ids: at least 1, and
      isqrt(n) strides fit in the list. */
  function Stride(n: nat): (d: nat)
    requires n >= 1
    ensures d >= 1 && Isqrt(n) >= 1
    ensures Isqrt(n) * d <= n
  {
    var k := Isqrt(n);
    assert k >= 1;
    assert k <= n by {
      if k > n { Arith.MulAtLeast(k, k); }
    }
    assert n == k * (n / k) + n % k;
    assert n / k >= 1;
    n / k
  }

  /** The list a non-empty sorted id list becomes on disk: one entry per id, a pair entry at
      every multiple of the stride pointing one stride ahead, or at the last index when one
      stride ahead runs off the end; a single id stays bare. */
  function SkipList(l: seq<int>): (r: seq<Entry>)
    requires |l| > 0
    ensures |r| == |l| && Values(r) == l
    ensures |l| == 1 ==> r == [Plain(l[0])]
    ensures forall i :: 0 <= i < |r| && r[i].Skip? ==> i <= r[i].target < |r|
    ensures forall i :: 0 <= i < |r| && r[i].Skip? ==> (r[i].target == i <==> i == |r| - 1)
  {
    var n := |l|;
    if n == 1 then [Plain(l[0])]
    else
      var d := Stride(n);
      seq(n, i requires 0 <= i < n =>
        if i % d == 0 then Skip(l[i], if i + d < n then i + d else n - 1) else Plain(l[i]))
  }

  /** How many entries of a list carry a skip pointer. */
  function PairCount(s: seq<Entry>): nat
  {
    if s == [] then 0
    else PairCount(s[..|s| - 1]) + (if s[|s| - 1].Skip? then 1 else 0)
  }

  lemma PairCountAppend(s: seq<Entry>, e: Entry)
    ensures PairCount(s + [e]) == PairCount(s) + (if e.Skip? then 1 else 0)
  {
    assert (s + [e])[..|s|] == s;
  }

  lemma {:induction false} PairCountMonotone(s: seq<Entry>, i: nat, j: nat)
    requires i <= j <= |s|
    ensures PairCount(s[..i]) <= PairCount(s[..j])
  {
    if i < j {
      PairCountMonotone(s, i, j - 1);
      assert s[..j][..j - 1] == s[..j - 1];
    }
  }

  /** Pair entries sit exactly at the multiples of the stride. */
  lemma PairAt(l: seq<int>, i: nat)
    requires |l| >= 2 && i < |l|
    ensures SkipList(l)[i].Skip? <==> i % Stride(|l|) == 0
  {
  }

  /** The m-th multiple p of the stride carries a pair entry. */
  lemma PairAtMultiple(l: seq<int>, m: nat, p: nat)
    requires |l| >= 2 && p == m * Stride(|l|) && p < |l|
    ensures SkipList(l)[p].Skip?
  {
    Arith.MultipleMod(m, Stride(|l|));
    PairAt(l, p);
  }

  /** Among the first p+1 entries, p being the m-th multiple of the stride, there are at
      least m+1 pair entries, one per multiple of the stride. */
  lemma {:induction false} PairsUpTo(l: seq<int>, m: nat, p: nat)
    requires |l| >= 2 && p == m * Stride(|l|) && p < |l|
    ensures PairCount(SkipList(l)[..p + 1]) >= m + 1
  {
    var r, d := SkipList(l), Stride(|l|);
    PairAtMultiple(l, m, p);
    assert r[..p + 1] == r[..p] + [r[p]];
    PairCountAppend(r[..p], r[p]);
    if m > 0 {
      Arith.MulPred(m, d);
      var q := p - d;
      PairsUpTo(l, m - 1, q);
      PairCountMonotone(r, q + 1, p);
    }
  }

  /** The isqrt(n) skip pointers the code budgets for are all placed: the list has at least
      that many pair entries, so the "not being used" report never fires. */
  lemma PairCountAtLeastIsqrt(l: seq<int>)
    requires |l| >= 2
    ensures PairCount(SkipList(l)) >= Isqrt(|l|)
  {
    var n := |l|;
    var m, d := Isqrt(n) - 1, Stride(n);
    var p := m * d;
    LastPairFits(n);
    PairsUpTo(l, m, p);
    PairCountWhole(SkipList(l), p + 1);
  }

  lemma PairCountWhole(s: seq<Entry>, j: nat)
    requires j <= |s|
    ensures PairCount(s[..j]) <= PairCount(s)
  {
    PairCountMonotone(s, j, |s|);
    assert s[..|s|] == s;
  }

  /** The last of the isqrt(n) multiples of the stride that the count relies on lies inside
      the list. */
  lemma LastPairFits(n: nat)
    requires n >= 2
    ensures (Isqrt(n) - 1) * Stride(n) + 1 <= n
  {
    var k, d := Isqrt(n), Stride(n);
    Arith.MulPred(k, d);
  }

  /** `get_skip_pointers` (index.py:202-229). An empty list divides by zero (None here);
      `leftover` is the final `skip_pointer_counter`, which never stays positive. */
  method GetSkipPointers(l: seq<int>) returns (r: Option<seq<Entry>>, leftover: int)
    ensures r.None? <==> |l| == 0
    ensures r.Some? ==> r.value == SkipList(l)
    ensures leftover <= 0
  {
    if |l| == 1 {
      return Some([Plain(l[0])]), 0;
    }
    if |l| == 0 {
      return None, 0;
    }
    var n := |l|;
    var counter := Isqrt(n);
    var d := n / counter;
    assert d == Stride(n);
    var builder: seq<Entry> := [];
    for i := 0 to n
      invariant builder == SkipList(l)[..i]
      invariant counter == Isqrt(n) - PairCount(builder)
    {
      var e: Entry;
      if i % d == 0 && i + d < n {
        e := Skip(l[i], i + d);
        counter := counter - 1;
      } else if i % d == 0 && i + d >= n {
        e := Skip(l[i], n - 1);
        counter := counter - 1;
      } else {
        e := Plain(l[i]);
      }
      PairCountAppend(builder, e);
      assert SkipList(l)[..i + 1] == SkipList(l)[..i] + [e];
      builder := builder + [e];
    }
    assert builder == SkipList(l);
    PairCountAtLeastIsqrt(l);
    return Some(builder), counter;
  }
}
