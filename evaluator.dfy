/** Query evaluation (search.py:122-176, 244-259, 373-378): a postfix stack machine over
    term tokens and already computed posting lists. */
module Evaluator {
  import opened Wrappers
  import opened Entries
  import opened Sorting
  import opened Merges
  import opened Operators

  /** A stack entry: a term not looked up yet, or a posting list. */
  datatype Operand = Term(term: string) | Resolved(list: seq<Entry>)

  /** How an evaluation ends: with the list on top of the stack, with nothing (an empty
      query leaves an empty stack and `process_query` returns `None`), or with an operator
      that finds too few operands (`stack.pop()` on an empty list). */
  datatype Outcome = Answer(list: seq<Entry>) | NoResult | StackUnderflow

  /** The decoded index: each term's posting list as stored on disk. */
  type Index = map<string, seq<Entry>>

  /** Every stored list, and the universe, is strictly increasing. */
  predicate IndexSorted(index: Index)
  {
    forall t :: t in index ==> StrictlySorted(Values(index[t]))
  }

  /** `posting_list_type_check` with the absent-term rule of `get_postings_list`
      (search.py:150-153, 377-378): a term is looked up, a list is passed through, and a
      term the dictionary lacks yields the empty list. */
  function Resolve(o: Operand, index: Index): (l: seq<Entry>)
    ensures o.Resolved? ==> l == o.list
    ensures o.Term? && o.term in index ==> l == index[o.term]
    ensures o.Term? && o.term !in index ==> l == []
  {
    match o
    case Resolved(list) => list
    case Term(t) => if t in index then index[t] else []
  }

  /** The document ids of a list, as a set. */
  function Ids(l: seq<Entry>): set<int>
  {
    set x | x in Values(l)
  }

  // ---------------------------------------------------------------- AND

  /** The key of the priority queue in `process_and_operator`: list length. */
  function ShorterOrEqual(x: seq<Entry>, y: seq<Entry>): bool
  {
    |x| <= |y|
  }

  lemma ShorterIsTotalPreorder()
    ensures TotalPreorder(ShorterOrEqual)
  {
  }

  /** Left-to-right fold of the intersection over a non-empty list of lists. */
  function AndFold(ls: seq<seq<Entry>>): seq<Entry>
    requires |ls| > 0
  {
    if |ls| == 1 then ls[0]
    else Bare(Inter(Values(AndFold(ls[..|ls| - 1])), Values(ls[|ls| - 1])))
  }

  /** What `process_and_operator` computes: the operands ordered by length, shortest first,
      then intersected from the left. */
  function AndOf(ls: seq<seq<Entry>>): seq<Entry>
    requires |ls| > 0
  {
    ShorterIsTotalPreorder();
    var pq := Sort(ls, ShorterOrEqual);
    assert |pq| == |multiset(pq)| == |ls|;
    AndFold(pq)
  }

  /** The length sort keeps the operands, so it keeps them strictly increasing. */
  lemma SortKeepsOperands(ls: seq<seq<Entry>>)
    requires forall k :: 0 <= k < |ls| ==> StrictlySorted(Values(ls[k]))
    ensures TotalPreorder(ShorterOrEqual)
    ensures |Sort(ls, ShorterOrEqual)| == |ls|
    ensures forall k :: 0 <= k < |ls| ==> StrictlySorted(Values(Sort(ls, ShorterOrEqual)[k]))
  {
    ShorterIsTotalPreorder();
    var pq := Sort(ls, ShorterOrEqual);
    assert |pq| == |multiset(pq)| == |ls|;
    forall k | 0 <= k < |pq| ensures StrictlySorted(Values(pq[k])) {
      assert pq[k] in multiset(ls);
    }
  }

  /** One more operand extends the fold by one intersection, which stays strictly
      increasing. */
  lemma AndFoldStep(pq: seq<seq<Entry>>, i: nat)
    requires 1 <= i < |pq|
    requires StrictlySorted(Values(AndFold(pq[..i])))
    ensures AndFold(pq[..i + 1]) == Bare(Inter(Values(AndFold(pq[..i])), Values(pq[i])))
    ensures StrictlySorted(Values(AndFold(pq[..i + 1])))
  {
    assert pq[..i + 1][..i] == pq[..i];
    InterMeaning(Values(AndFold(pq[..i])), Values(pq[i]));
    ValuesOfBare(Inter(Values(AndFold(pq[..i])), Values(pq[i])));
  }

  /** `process_and_operator` (search.py:156-176): sort by length, then intersect. */
  method ProcessAnd(operands: seq<seq<Entry>>) returns (r: seq<Entry>)
    requires |operands| > 0
    requires forall k :: 0 <= k < |operands| ==> StrictlySorted(Values(operands[k]))
    ensures r == AndOf(operands)
  {
    SortKeepsOperands(operands);
    var pq := Sort(operands, ShorterOrEqual);
    AndOfSorted(operands, pq);
    r := IntersectAll(pq);
  }

  /** The pop-and-intersect loop of `process_and_operator` (search.py:170-174) over the
      sorted queue. */
  method IntersectAll(pq: seq<seq<Entry>>) returns (r: seq<Entry>)
    requires |pq| > 0
    requires forall k :: 0 <= k < |pq| ==> StrictlySorted(Values(pq[k]))
    ensures r == AndFold(pq)
  {
    r := pq[0];
    var i := 1;
    assert pq[..1] == [pq[0]];
    while i < |pq|
      invariant 1 <= i <= |pq|
      invariant r == AndFold(pq[..i])
      invariant StrictlySorted(Values(r))
    {
      var next := pq[i];
      AndFoldStep(pq, i);
      assert StrictlySorted(Values(next));
      r := IntersectMerge(r, next);
      i := i + 1;
    }
    assert pq[..i] == pq;
  }

  lemma AndOfSorted(ls: seq<seq<Entry>>, pq: seq<seq<Entry>>)
    requires |ls| > 0 && TotalPreorder(ShorterOrEqual) && pq == Sort(ls, ShorterOrEqual)
    ensures |pq| == |ls| && AndOf(ls) == AndFold(pq)
  {
    assert |pq| == |multiset(pq)| == |ls|;
  }

  /** An id is in the fold iff it is in every operand; the fold is strictly increasing and,
      from two operands on, made of bare ids. */
  lemma {:induction false} AndFoldMeaning(ls: seq<seq<Entry>>)
    requires |ls| > 0
    requires forall k :: 0 <= k < |ls| ==> StrictlySorted(Values(ls[k]))
    ensures StrictlySorted(Values(AndFold(ls)))
    ensures forall x :: x in Values(AndFold(ls)) <==> forall k :: 0 <= k < |ls| ==> x in Values(ls[k])
    ensures |ls| >= 2 ==> AllPlain(AndFold(ls))
  {
    if |ls| > 1 {
      var init, last := ls[..|ls| - 1], ls[|ls| - 1];
      AndFoldMeaning(init);
      var f := AndFold(init);
      InterMeaning(Values(f), Values(last));
      ValuesOfBare(Inter(Values(f), Values(last)));
      forall x ensures x in Values(AndFold(ls)) <==> forall k :: 0 <= k < |ls| ==> x in Values(ls[k]) {
        if forall k :: 0 <= k < |ls| ==> x in Values(ls[k]) {
          forall k | 0 <= k < |init| ensures x in Values(init[k]) {
            assert init[k] == ls[k];
          }
        }
      }
    }
  }

  /** Reordering the operands does not change which ids lie in all of them. */
  lemma SameOperands(pq: seq<seq<Entry>>, ls: seq<seq<Entry>>, x: int)
    requires multiset(pq) == multiset(ls)
    ensures (forall k :: 0 <= k < |pq| ==> x in Values(pq[k]))
        <==> (forall k :: 0 <= k < |ls| ==> x in Values(ls[k]))
  {
    if forall k :: 0 <= k < |pq| ==> x in Values(pq[k]) {
      forall k | 0 <= k < |ls| ensures x in Values(ls[k]) {
        assert ls[k] in multiset(pq);
        var j :| 0 <= j < |pq| && pq[j] == ls[k];
      }
    }
    if forall k :: 0 <= k < |ls| ==> x in Values(ls[k]) {
      forall k | 0 <= k < |pq| ensures x in Values(pq[k]) {
        assert pq[k] in multiset(ls);
        var j :| 0 <= j < |ls| && ls[j] == pq[k];
      }
    }
  }

  /** AND of sorted operands holds exactly the ids common to all of them, strictly
      increasing, whatever order the length sort puts them in. */
  lemma AndMeaning(ls: seq<seq<Entry>>)
    requires |ls| > 0
    requires forall k :: 0 <= k < |ls| ==> StrictlySorted(Values(ls[k]))
    ensures StrictlySorted(Values(AndOf(ls)))
    ensures forall x :: x in Values(AndOf(ls)) <==> forall k :: 0 <= k < |ls| ==> x in Values(ls[k])
    ensures |ls| >= 2 ==> AllPlain(AndOf(ls))
  {
    ShorterIsTotalPreorder();
    var pq := Sort(ls, ShorterOrEqual);
    assert |pq| == |multiset(pq)| == |ls|;
    forall k | 0 <= k < |pq| ensures StrictlySorted(Values(pq[k])) {
      assert pq[k] in multiset(ls);
    }
    AndFoldMeaning(pq);
    forall x ensures x in Values(AndOf(ls)) <==> forall k :: 0 <= k < |ls| ==> x in Values(ls[k]) {
      SameOperands(pq, ls, x);
    }
  }

  /** For two sorted operands the order chosen by the length sort does not matter. */
  lemma AndOfPair(x: seq<Entry>, y: seq<Entry>)
    requires StrictlySorted(Values(x)) && StrictlySorted(Values(y))
    ensures AndOf([x, y]) == Bare(Inter(Values(x), Values(y)))
  {
    AndMeaning([x, y]);
    var r := AndOf([x, y]);
    InterMeaning(Values(x), Values(y));
    forall z ensures z in Values(r) <==> z in Inter(Values(x), Values(y)) {
      assert [x, y][0] == x && [x, y][1] == y;
    }
    SortedUnique(Values(r), Inter(Values(x), Values(y)));
    ValuesOfBare(Inter(Values(x), Values(y)));
    assert forall i :: 0 <= i < |r| ==> r[i] == Plain(Values(r)[i]);
  }

  // ---------------------------------------------------------------- OR

  /** What `process_or_operator` computes from an accumulated list `prev`: operands are
      popped from the end; while `prev` is empty the popped operand replaces it, otherwise
      it is merged in with `union_merge(prev, curr)`. */
  function OrFrom(prev: seq<Entry>, ops: seq<seq<Entry>>): seq<Entry>
    decreases |ops|
  {
    if ops == [] then prev
    else
      var curr := ops[|ops| - 1];
      OrFrom(if prev == [] then curr else UnionOf(prev, curr), ops[..|ops| - 1])
  }

  /** `process_or_operator` (search.py:244-259). */
  method ProcessOr(operands: seq<seq<Entry>>) returns (r: seq<Entry>)
    ensures r == OrFrom([], operands)
  {
    var ops := operands;
    r := [];
    while |ops| > 0
      invariant OrFrom(r, ops) == OrFrom([], operands)
      decreases |ops|
    {
      if |r| == 0 {
        r := ops[|ops| - 1];
        ops := ops[..|ops| - 1];
        continue;
      }
      var curr := ops[|ops| - 1];
      ops := ops[..|ops| - 1];
      r := UnionMerge(r, curr);
    }
  }

  /** An id is in the OR iff it is in the accumulated list or in some operand; for sorted
      inputs the result is strictly increasing. */
  lemma {:induction false} OrMeaning(prev: seq<Entry>, ops: seq<seq<Entry>>)
    requires StrictlySorted(Values(prev))
    requires forall k :: 0 <= k < |ops| ==> StrictlySorted(Values(ops[k]))
    ensures StrictlySorted(Values(OrFrom(prev, ops)))
    ensures forall x :: x in Values(OrFrom(prev, ops))
                    <==> x in Values(prev) || exists k :: 0 <= k < |ops| && x in Values(ops[k])
    decreases |ops|
  {
    if ops != [] {
      var init, curr := ops[..|ops| - 1], ops[|ops| - 1];
      var next := if prev == [] then curr else UnionOf(prev, curr);
      UnionMeaning(prev, curr);
      OrMeaning(next, init);
      forall x ensures x in Values(OrFrom(prev, ops))
                    <==> x in Values(prev) || exists k :: 0 <= k < |ops| && x in Values(ops[k]) {
        if exists k :: 0 <= k < |ops| && x in Values(ops[k]) {
          var k :| 0 <= k < |ops| && x in Values(ops[k]);
          if k < |init| {
            assert init[k] == ops[k];
          }
        }
        if exists k :: 0 <= k < |init| && x in Values(init[k]) {
          var k :| 0 <= k < |init| && x in Values(init[k]);
          assert ops[k] == init[k];
        }
      }
    }
  }

  /** OR of two operands one of which is empty returns the other one unchanged, skip pairs
      included; otherwise it is `union_merge(right, left)`. */
  lemma OrOfPair(x: seq<Entry>, y: seq<Entry>)
    ensures y == [] ==> OrFrom([], [x, y]) == x
    ensures x == [] ==> OrFrom([], [x, y]) == y
    ensures x != [] && y != [] ==> OrFrom([], [x, y]) == UnionOf(y, x)
  {
    assert [x, y][..1] == [x];
    assert [x][..0] == [];
    assert OrFrom([], [x, y]) == OrFrom(y, [x]);
    assert OrFrom(y, [x]) == OrFrom(if y == [] then x else UnionOf(y, x), []);
    UnionWithEmpty(y);
  }

  // ---------------------------------------------------------------- the stack machine

  /** What AND and OR push for the popped lists, the top one first, in closed form: the
      intersection of their ids for AND; for OR the other list when one is empty and
      otherwise `union_merge(right, left)`. CombineProcesses shows that this is what
      `process_and_operator` and `process_or_operator` return. */
  function Combine(tok: string, left: seq<Entry>, right: seq<Entry>): seq<Entry>
  {
    if tok == "AND" then Bare(Inter(Values(left), Values(right)))
    else if right == [] then left
    else if left == [] then right
    else UnionOf(right, left)
  }

  lemma CombineProcesses(tok: string, left: seq<Entry>, right: seq<Entry>)
    requires StrictlySorted(Values(left)) && StrictlySorted(Values(right))
    ensures tok == "AND" ==> Combine(tok, left, right) == AndOf([left, right])
    ensures tok != "AND" ==> Combine(tok, left, right) == OrFrom([], [left, right])
  {
    AndOfPair(left, right);
    OrOfPair(left, right);
  }

  /** One token of `process_query` (search.py:125-147). A term is pushed unresolved; an
      operator pops its left operand, then for AND and OR its right operand, resolves
      them and pushes the result. `None` stands for popping an empty stack. */
  function Step(stack: seq<Operand>, tok: string, index: Index, universe: seq<int>)
    : Option<seq<Operand>>
  {
    var n := |stack|;
    if !IsOperator(tok) then Some(stack + [Term(tok)])
    else if tok == "NOT" then
      if n == 0 then None
      else Some(stack[..n - 1] + [Resolved(Bare(Minus(universe, Values(Resolve(stack[n - 1], index)))))])
    else if n < 2 then None
    else Some(stack[..n - 2] + [Resolved(Combine(tok, Resolve(stack[n - 1], index), Resolve(stack[n - 2], index)))])
  }

  /** The arity of each token: a term pushes one entry; NOT needs one entry and replaces
      it; AND and OR need two and replace them by one. Entries below are left alone and
      what an operator pushes is a list. */
  lemma StepShape(stack: seq<Operand>, tok: string, index: Index, universe: seq<int>)
    ensures var r := Step(stack, tok, index, universe);
            (!IsOperator(tok) ==> r == Some(stack + [Term(tok)]))
            && (tok == "NOT" ==> (r.Some? <==> |stack| >= 1))
            && (tok == "NOT" && r.Some? ==> |r.value| == |stack|)
            && ((tok == "AND" || tok == "OR") ==> (r.Some? <==> |stack| >= 2))
            && ((tok == "AND" || tok == "OR") && r.Some? ==> |r.value| == |stack| - 1)
            && (IsOperator(tok) && r.Some? ==>
                  r.value[..|r.value| - 1] == stack[..|r.value| - 1] && r.value[|r.value| - 1].Resolved?)
  {
    OperatorTable();
  }

  /** The machine run over the remaining tokens from a given stack. */
  function Run(stack: seq<Operand>, tokens: seq<string>, index: Index, universe: seq<int>)
    : Option<seq<Operand>>
    decreases |tokens|
  {
    if tokens == [] then Some(stack)
    else
      match Step(stack, tokens[0], index, universe)
      case None => None
      case Some(s) => Run(s, tokens[1..], index, universe)
  }

  /** The result of a postfix query: the list on top of the final stack, looked up when it
      is still a term; anything below it is ignored. */
  function EvalQuery(tokens: seq<string>, index: Index, universe: seq<int>): Outcome
  {
    match Run([], tokens, index, universe)
    case None => StackUnderflow
    case Some(s) => if s == [] then NoResult else Answer(Resolve(s[|s| - 1], index))
  }

  /** Every list on the stack is strictly increasing. */
  predicate StackSorted(stack: seq<Operand>, index: Index)
  {
    forall i :: 0 <= i < |stack| ==> StrictlySorted(Values(Resolve(stack[i], index)))
  }

  /** Replacing the entries above k by one sorted list keeps the stack sorted. */
  lemma SortedReplace(stack: seq<Operand>, k: nat, x: Operand, index: Index)
    requires StackSorted(stack, index) && k <= |stack| && StrictlySorted(Values(Resolve(x, index)))
    ensures StackSorted(stack[..k] + [x], index)
  {
    var st := stack[..k] + [x];
    forall i | 0 <= i < |st| ensures StrictlySorted(Values(Resolve(st[i], index))) {
      if i < k {
        assert st[i] == stack[i];
      }
    }
  }

  /** A step keeps every list on the stack strictly increasing. */
  lemma StepKeepsSorted(stack: seq<Operand>, tok: string, index: Index, universe: seq<int>)
    requires IndexSorted(index) && StrictlySorted(universe) && StackSorted(stack, index)
    requires Step(stack, tok, index, universe).Some?
    ensures StackSorted(Step(stack, tok, index, universe).value, index)
  {
    var n := |stack|;
    if !IsOperator(tok) {
      assert stack[..n] == stack;
      SortedReplace(stack, n, Term(tok), index);
    } else {
      var left := Resolve(stack[n - 1], index);
      assert StrictlySorted(Values(left));
      if tok == "NOT" {
        var l := Minus(universe, Values(left));
        MinusMeaning(universe, Values(left));
        ValuesOfBare(l);
        SortedReplace(stack, n - 1, Resolved(Bare(l)), index);
      } else {
        var right := Resolve(stack[n - 2], index);
        assert StrictlySorted(Values(right));
        CombineMeaning(tok, left, right);
        SortedReplace(stack, n - 2, Resolved(Combine(tok, left, right)), index);
      }
    }
  }

  /** A step that succeeds moves the run on by one token. */
  lemma RunAdvance(stack: seq<Operand>, next: seq<Operand>, tokens: seq<string>, i: nat,
                   index: Index, universe: seq<int>)
    requires i < |tokens|
    requires Step(stack, tokens[i], index, universe) == Some(next)
    ensures Run(stack, tokens[i..], index, universe) == Run(next, tokens[i + 1..], index, universe)
  {
    assert tokens[i..][0] == tokens[i] && tokens[i..][1..] == tokens[i + 1..];
  }

  lemma StepBinary(stack: seq<Operand>, tok: string, index: Index, universe: seq<int>, result: seq<Entry>)
    requires (tok == "AND" || tok == "OR") && |stack| >= 2
    requires result == Combine(tok, Resolve(stack[|stack| - 1], index), Resolve(stack[|stack| - 2], index))
    ensures Step(stack, tok, index, universe) == Some(stack[..|stack| - 2] + [Resolved(result)])
  {
    OperatorTable();
  }

  /** A step that fails ends the run. */
  lemma RunStops(stack: seq<Operand>, tokens: seq<string>, i: nat, index: Index, universe: seq<int>)
    requires i < |tokens| && Step(stack, tokens[i], index, universe).None?
    ensures Run(stack, tokens[i..], index, universe) == None
  {
    assert tokens[i..][0] == tokens[i];
  }

  /** The operator branch of `process_query` (search.py:128-144): pop the operand(s),
      combine them, push the result; a pop from an empty stack ends the query. */
  method ApplyOperator(stack: seq<Operand>, tok: string, index: Index, universe: seq<int>)
    returns (next: Option<seq<Operand>>)
    requires IsOperator(tok)
    requires StackSorted(stack, index) && IndexSorted(index) && StrictlySorted(universe)
    ensures next == Step(stack, tok, index, universe)
  {
    if |stack| == 0 || (tok != "NOT" && |stack| == 1) {
      return None;
    }
    var left := Resolve(stack[|stack| - 1], index);
    assert StrictlySorted(Values(left));
    if tok == "NOT" {
      var result := Negate(universe, left);
      return Some(stack[..|stack| - 1] + [Resolved(result)]);
    }
    var right := Resolve(stack[|stack| - 2], index);
    assert StrictlySorted(Values(right));
    var result;
    if tok == "AND" {
      result := ProcessAnd([left, right]);
    } else {
      OperatorTable();
      result := ProcessOr([left, right]);
    }
    CombineProcesses(tok, left, right);
    StepBinary(stack, tok, index, universe, result);
    return Some(stack[..|stack| - 2] + [Resolved(result)]);
  }

  /** `process_query` (search.py:122-147). */
  method ProcessQuery(tokens: seq<string>, index: Index, universe: seq<int>) returns (o: Outcome)
    requires IndexSorted(index) && StrictlySorted(universe)
    ensures o == EvalQuery(tokens, index, universe)
  {
    var stack: seq<Operand> := [];
    var i := 0;
    while i < |tokens|
      invariant 0 <= i <= |tokens|
      invariant Run(stack, tokens[i..], index, universe) == Run([], tokens, index, universe)
      invariant StackSorted(stack, index)
    {
      var tok := tokens[i];
      var next: Option<seq<Operand>>;
      if !IsOperator(tok) {
        next := Some(stack + [Term(tok)]);
      } else {
        next := ApplyOperator(stack, tok, index, universe);
      }
      if next.None? {
        RunStops(stack, tokens, i, index, universe);
        return StackUnderflow;
      }
      StepKeepsSorted(stack, tok, index, universe);
      RunAdvance(stack, next.value, tokens, i, index, universe);
      stack := next.value;
      i := i + 1;
    }
    assert tokens[i..] == [];
    if |stack| == 0 {
      return NoResult;
    }
    return Answer(Resolve(stack[|stack| - 1], index));
  }

  // ---------------------------------------------------------------- set semantics

  /** The reference meaning of a postfix query: a stack machine over sets of ids, where a
      term denotes the documents that contain it, NOT the complement in the universe, AND
      the intersection and OR the union. */
  function SetStep(sets: seq<set<int>>, tok: string, index: Index, universe: seq<int>)
    : Option<seq<set<int>>>
  {
    var n := |sets|;
    if !IsOperator(tok) then Some(sets + [if tok in index then Ids(index[tok]) else {}])
    else if tok == "NOT" then
      if n == 0 then None else Some(sets[..n - 1] + [(set x | x in universe) - sets[n - 1]])
    else if n < 2 then None
    else Some(sets[..n - 2] + [SetCombine(tok, sets[n - 1], sets[n - 2])])
  }

  /** AND and OR on id sets. */
  function SetCombine(tok: string, top: set<int>, below: set<int>): set<int>
  {
    if tok == "AND" then top * below else top + below
  }

  function SetRun(sets: seq<set<int>>, tokens: seq<string>, index: Index, universe: seq<int>)
    : Option<seq<set<int>>>
    decreases |tokens|
  {
    if tokens == [] then Some(sets)
    else
      match SetStep(sets, tokens[0], index, universe)
      case None => None
      case Some(s) => SetRun(s, tokens[1..], index, universe)
  }

  /** The list stack and the set stack agree entry by entry. */
  predicate Corresponds(stack: seq<Operand>, sets: seq<set<int>>, index: Index)
  {
    |stack| == |sets| && forall i :: 0 <= i < |stack| ==> Ids(Resolve(stack[i], index)) == sets[i]
  }

  /** The ids of the negation are the universe's ids outside the operand. */
  lemma NotIds(universe: seq<int>, l: seq<Entry>)
    requires StrictlySorted(universe)
    ensures Ids(Bare(Minus(universe, Values(l)))) == (set x | x in universe) - Ids(l)
  {
    MinusMeaning(universe, Values(l));
    ValuesOfBare(Minus(universe, Values(l)));
  }

  lemma AndIds(l: seq<Entry>, r: seq<Entry>)
    requires StrictlySorted(Values(l)) && StrictlySorted(Values(r))
    ensures Ids(AndOf([l, r])) == Ids(l) * Ids(r)
  {
    AndMeaning([l, r]);
    assert [l, r][0] == l && [l, r][1] == r;
  }

  lemma OrIds(l: seq<Entry>, r: seq<Entry>)
    requires StrictlySorted(Values(l)) && StrictlySorted(Values(r))
    ensures Ids(OrFrom([], [l, r])) == Ids(l) + Ids(r)
  {
    OrMeaning([], [l, r]);
    forall x ensures x in Ids(OrFrom([], [l, r])) <==> x in Ids(l) + Ids(r) {
      if x in Values(l) {
        assert x in Values([l, r][0]);
      }
      if x in Values(r) {
        assert x in Values([l, r][1]);
      }
    }
  }

  /** Replacing the entries above k by one list and its id set keeps the stacks in
      agreement. */
  lemma CorrespondsReplace(stack: seq<Operand>, sets: seq<set<int>>, k: nat, x: Operand, s: set<int>,
                           index: Index)
    requires Corresponds(stack, sets, index) && k <= |stack| && Ids(Resolve(x, index)) == s
    ensures Corresponds(stack[..k] + [x], sets[..k] + [s], index)
  {
    var st, ss := stack[..k] + [x], sets[..k] + [s];
    forall i | 0 <= i < |st| ensures Ids(Resolve(st[i], index)) == ss[i] {
      if i < k {
        assert st[i] == stack[i] && ss[i] == sets[i];
      }
    }
  }

  /** NOT on both machines. */
  lemma NotCorresponds(stack: seq<Operand>, sets: seq<set<int>>, index: Index, universe: seq<int>)
    requires IndexSorted(index) && StrictlySorted(universe) && |stack| >= 1
    requires StackSorted(stack, index) && Corresponds(stack, sets, index)
    ensures SetStep(sets, "NOT", index, universe).Some?
    ensures Corresponds(Step(stack, "NOT", index, universe).value, SetStep(sets, "NOT", index, universe).value, index)
  {
    var n := |stack|;
    var left := Resolve(stack[n - 1], index);
    NotIds(universe, left);
    CorrespondsReplace(stack, sets, n - 1, Resolved(Bare(Minus(universe, Values(left)))),
                       (set x | x in universe) - sets[n - 1], index);
  }

  /** What AND and OR push is strictly increasing, and its ids are the intersection and
      the union of the popped lists' ids. */
  lemma CombineMeaning(tok: string, l: seq<Entry>, r: seq<Entry>)
    requires StrictlySorted(Values(l)) && StrictlySorted(Values(r))
    ensures StrictlySorted(Values(Combine(tok, l, r)))
    ensures Ids(Combine(tok, l, r)) == SetCombine(tok, Ids(l), Ids(r))
  {
    if tok == "AND" {
      InterMeaning(Values(l), Values(r));
      ValuesOfBare(Inter(Values(l), Values(r)));
    } else if r != [] && l != [] {
      UnionMeaning(r, l);
    }
  }

  /** AND and OR on both machines. */
  lemma BinaryCorresponds(stack: seq<Operand>, sets: seq<set<int>>, tok: string, index: Index,
                          universe: seq<int>)
    requires IndexSorted(index) && (tok == "AND" || tok == "OR") && |stack| >= 2
    requires StackSorted(stack, index) && Corresponds(stack, sets, index)
    ensures SetStep(sets, tok, index, universe).Some?
    ensures Corresponds(Step(stack, tok, index, universe).value, SetStep(sets, tok, index, universe).value, index)
  {
    var n := |stack|;
    var left, right := Resolve(stack[n - 1], index), Resolve(stack[n - 2], index);
    assert StrictlySorted(Values(left)) && StrictlySorted(Values(right));
    var result := Combine(tok, left, right);
    StepBinary(stack, tok, index, universe, result);
    CombineMeaning(tok, left, right);
    OperatorTable();
    CorrespondsReplace(stack, sets, n - 2, Resolved(result), SetCombine(tok, sets[n - 1], sets[n - 2]), index);
  }

  /** One step of the list machine and of the set machine fail together, and otherwise
      leave agreeing stacks. */
  lemma StepCorresponds(stack: seq<Operand>, sets: seq<set<int>>, tok: string, index: Index,
                        universe: seq<int>)
    requires IndexSorted(index) && StrictlySorted(universe)
    requires StackSorted(stack, index) && Corresponds(stack, sets, index)
    ensures Step(stack, tok, index, universe).Some? <==> SetStep(sets, tok, index, universe).Some?
    ensures Step(stack, tok, index, universe).Some? ==>
              Corresponds(Step(stack, tok, index, universe).value, SetStep(sets, tok, index, universe).value, index)
              && StackSorted(Step(stack, tok, index, universe).value, index)
  {
    var n := |stack|;
    if !IsOperator(tok) {
      assert stack[..n] == stack && sets[..n] == sets;
      CorrespondsReplace(stack, sets, n, Term(tok), if tok in index then Ids(index[tok]) else {}, index);
    } else if tok == "NOT" {
      if n >= 1 {
        NotCorresponds(stack, sets, index, universe);
      }
    } else {
      OperatorTable();
      if n >= 2 {
        BinaryCorresponds(stack, sets, tok, index, universe);
      }
    }
    if Step(stack, tok, index, universe).Some? {
      StepKeepsSorted(stack, tok, index, universe);
    }
  }

  lemma {:induction false} RunCorresponds(stack: seq<Operand>, sets: seq<set<int>>, tokens: seq<string>,
                                          index: Index, universe: seq<int>)
    requires IndexSorted(index) && StrictlySorted(universe)
    requires StackSorted(stack, index) && Corresponds(stack, sets, index)
    ensures Run(stack, tokens, index, universe).Some? <==> SetRun(sets, tokens, index, universe).Some?
    ensures Run(stack, tokens, index, universe).Some? ==>
              Corresponds(Run(stack, tokens, index, universe).value, SetRun(sets, tokens, index, universe).value, index)
              && StackSorted(Run(stack, tokens, index, universe).value, index)
    decreases |tokens|
  {
    if tokens != [] {
      StepCorresponds(stack, sets, tokens[0], index, universe);
      var r := Step(stack, tokens[0], index, universe);
      if r.Some? {
        RunCorresponds(r.value, SetStep(sets, tokens[0], index, universe).value, tokens[1..], index, universe);
      }
    }
  }

  /** What a query computes: it underflows exactly when the set machine does, yields no
      result exactly when the set machine ends with an empty stack, and otherwise answers
      with a strictly increasing list whose ids are the set on top of the set machine's
      stack. */
  lemma QueryMeaning(tokens: seq<string>, index: Index, universe: seq<int>)
    requires IndexSorted(index) && StrictlySorted(universe)
    ensures EvalQuery(tokens, index, universe) == StackUnderflow <==> SetRun([], tokens, index, universe) == None
    ensures EvalQuery(tokens, index, universe) == NoResult <==> SetRun([], tokens, index, universe) == Some([])
    ensures EvalQuery(tokens, index, universe).Answer? ==>
              var sets := SetRun([], tokens, index, universe).value;
              var l := EvalQuery(tokens, index, universe).list;
              sets != [] && StrictlySorted(Values(l)) && Ids(l) == sets[|sets| - 1]
  {
    RunCorresponds([], [], tokens, index, universe);
  }
}
