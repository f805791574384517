/** Query parsing (search.py:62-120): the character tokenizer `split_string` and the
    Shunting-Yard conversion `get_postfix`. Lower-casing and stemming of operand tokens are
    an abstract `normalize` function. */
module QueryParser {
  import opened Wrappers
  import opened Operators

  // ---------------------------------------------------------------- split_string

  /** A token as `split_string` emits it: non-empty, free of spaces, and a parenthesis
      only as a token of its own. */
  predicate WellFormedToken(t: string)
  {
    t != "" && ' ' !in t && (('(' in t || ')' in t) ==> |t| == 1)
  }

  /** The tokens joined back together. */
  function Concat(ts: seq<string>): string
  {
    if ts == [] then "" else Concat(ts[..|ts| - 1]) + ts[|ts| - 1]
  }

  /** The text with its spaces removed. */
  function NoSpaces(s: string): string
  {
    if s == [] then "" else NoSpaces(s[..|s| - 1]) + (if s[|s| - 1] == ' ' then "" else [s[|s| - 1]])
  }

  lemma ConcatAppend(ts: seq<string>, t: string)
    ensures Concat(ts + [t]) == Concat(ts) + t
  {
    assert (ts + [t])[..|ts|] == ts;
  }

  /** The tokenizer's state: the tokens emitted so far and the word being built. */
  datatype Split = Split(tokens: seq<string>, curr: string)

  /** The tokens with the current word, if any, emitted. */
  function Flush(prev: Split): seq<string>
  {
    if prev.curr != "" then prev.tokens + [prev.curr] else prev.tokens
  }

  /** One character of `split_string`: a parenthesis ends the current word and is emitted
      alone, a space ends the current word, any other character extends it. */
  function ScanChar(prev: Split, c: char): Split
  {
    if c == '(' || c == ')' then Split(Flush(prev) + [[c]], "")
    else if c == ' ' then Split(Flush(prev), "")
    else Split(prev.tokens, prev.curr + [c])
  }

  /** The tokenizer's invariant: well-formed tokens, and a current word free of spaces and
      parentheses. */
  predicate Clean(st: Split)
  {
    (forall t :: t in st.tokens ==> WellFormedToken(t))
    && ' ' !in st.curr && '(' !in st.curr && ')' !in st.curr
  }

  /** Emitting a clean current word keeps the tokens well-formed and the text unchanged. */
  lemma FlushKeeps(prev: Split)
    requires Clean(prev)
    ensures forall t :: t in Flush(prev) ==> WellFormedToken(t)
    ensures Concat(Flush(prev)) == Concat(prev.tokens) + prev.curr
  {
    if prev.curr != "" {
      ConcatAppend(prev.tokens, prev.curr);
    } else {
      assert Concat(prev.tokens) + prev.curr == Concat(prev.tokens);
    }
  }

  /** A parenthesis is emitted as a token of its own after the current word. */
  lemma ScanParen(prev: Split, c: char)
    requires Clean(prev) && (c == '(' || c == ')')
    ensures Clean(ScanChar(prev, c))
    ensures Concat(ScanChar(prev, c).tokens) + ScanChar(prev, c).curr == Concat(prev.tokens) + prev.curr + [c]
  {
    var flushed := Flush(prev);
    FlushKeeps(prev);
    AppendWellFormed(flushed, [c]);
    ConcatAppend(flushed, [c]);
    assert ScanChar(prev, c) == Split(flushed + [[c]], "");
  }

  lemma AppendWellFormed(ts: seq<string>, t: string)
    requires (forall u :: u in ts ==> WellFormedToken(u)) && WellFormedToken(t)
    ensures forall u :: u in ts + [t] ==> WellFormedToken(u)
  {
  }

  /** A clean tokenizer state stays clean, and the text it holds grows by the character
      unless that is a space. */
  lemma ScanCharKeeps(prev: Split, c: char)
    requires Clean(prev)
    ensures Clean(ScanChar(prev, c))
    ensures Concat(ScanChar(prev, c).tokens) + ScanChar(prev, c).curr
            == Concat(prev.tokens) + prev.curr + (if c == ' ' then "" else [c])
  {
    if c == '(' || c == ')' {
      ScanParen(prev, c);
    } else if c == ' ' {
      FlushKeeps(prev);
      assert Concat(prev.tokens) + prev.curr + "" == Concat(prev.tokens) + prev.curr;
    } else {
      assert prev.curr + [c] == prev.curr + [c];
    }
  }

  /** The state of `split_string` after reading s. */
  function Scan(s: string): (r: Split)
    ensures Clean(r)
    ensures Concat(r.tokens) + r.curr == NoSpaces(s)
  {
    if s == [] then Split([], "")
    else
      var prev := Scan(s[..|s| - 1]);
      ScanCharKeeps(prev, s[|s| - 1]);
      ScanChar(prev, s[|s| - 1])
  }

  /** `split_string`'s result: the state's tokens, then the last word if any. */
  function Tokenize(s: string): (ts: seq<string>)
    ensures forall t :: t in ts ==> WellFormedToken(t)
    ensures Concat(ts) == NoSpaces(s)
  {
    var st := Scan(s);
    if st.curr != "" then
      ConcatAppend(st.tokens, st.curr);
      st.tokens + [st.curr]
    else st.tokens
  }

  /** `split_string` (search.py:100-120). */
  method SplitString(query: string) returns (tokens: seq<string>)
    ensures tokens == Tokenize(query)
  {
    tokens := [];
    var curr := "";
    for i := 0 to |query|
      invariant Split(tokens, curr) == Scan(query[..i])
    {
      assert query[..i + 1][..i] == query[..i];
      var c := query[i];
      if c == '(' || c == ')' {
        if curr != "" {
          tokens := tokens + [curr];
          curr := "";
        }
        tokens := tokens + [[c]];
      } else if c == ' ' {
        if curr != "" {
          tokens := tokens + [curr];
          curr := "";
        }
      } else {
        curr := curr + [c];
      }
    }
    assert query[..|query|] == query;
    if curr != "" {
      tokens := tokens + [curr];
    }
  }

  // ---------------------------------------------------------------- get_postfix

  /** Why a conversion stops without output: `exit()` on a `)` with no `(` stacked, or an
      `IndexError` from reading the top of an empty operator stack. */
  datatype ParseError = Exit | IndexError

  /** The converter's state: the output queue and the operator stack (top last). */
  datatype Shunt = Shunt(out: seq<string>, ops: seq<string>)

  /** A stack entry of `get_postfix`: an operator or an opening parenthesis. */
  predicate Stackable(t: string)
  {
    IsOperator(t) || t == "("
  }

  /** An operand token: neither an operator nor a parenthesis. */
  predicate IsOperand(t: string)
  {
    !IsOperator(t) && t != "(" && t != ")"
  }

  /** The stack in pop order: top first. */
  function Reverse(s: seq<string>): (r: seq<string>)
    ensures |r| == |s|
  {
    if s == [] then [] else [s[|s| - 1]] + Reverse(s[..|s| - 1])
  }

  lemma ReverseSingle(x: string)
    ensures Reverse([x]) == [x]
  {
    assert [x][..0] == [];
  }

  /** Reversing moves entries without adding or losing any. */
  lemma {:induction false} ReversePerm(s: seq<string>)
    ensures multiset(Reverse(s)) == multiset(s)
  {
    if s != [] {
      ReversePerm(s[..|s| - 1]);
      assert s == s[..|s| - 1] + [s[|s| - 1]];
    }
  }

  /** Reversing a non-empty suffix starts with the stack top. */
  lemma ReverseSuffix(ops: seq<string>, k: nat)
    requires k < |ops|
    ensures Reverse(ops[k..]) == [ops[|ops| - 1]] + Reverse(ops[..|ops| - 1][k..])
  {
    assert ops[k..][..|ops[k..]| - 1] == ops[..|ops| - 1][k..];
  }

  /** How much of the stack survives the pop loop for an incoming operator of precedence
      p: everything up to the topmost entry that is not an operator of precedence strictly
      above p. */
  function KeepBelow(ops: seq<string>, p: nat): (k: nat)
    ensures k <= |ops|
    ensures forall i :: k <= i < |ops| ==> IsOperator(ops[i]) && OpsDict[ops[i]] > p
    ensures k > 0 ==> !(IsOperator(ops[k - 1]) && OpsDict[ops[k - 1]] > p)
  {
    if ops == [] then 0
    else if IsOperator(ops[|ops| - 1]) && OpsDict[ops[|ops| - 1]] > p then KeepBelow(ops[..|ops| - 1], p)
    else |ops|
  }

  /** How much of the stack survives the `)` loop: everything up to the topmost `(`, or
      nothing when there is none. */
  function OpenAt(ops: seq<string>): (k: nat)
    ensures k <= |ops|
    ensures forall i :: k <= i < |ops| ==> ops[i] != "("
    ensures k > 0 ==> ops[k - 1] == "("
  {
    if ops == [] then 0
    else if ops[|ops| - 1] == "(" then |ops|
    else OpenAt(ops[..|ops| - 1])
  }

  /** The pop loop for an incoming operator of precedence p: the popped entries go to the
      output top first. */
  function PopHigher(out: seq<string>, ops: seq<string>, p: nat): Shunt
  {
    var k := KeepBelow(ops, p);
    Shunt(out + Reverse(ops[k..]), ops[..k])
  }

  /** The `)` loop: the popped entries go to the output top first. */
  function CloseParen(out: seq<string>, ops: seq<string>): Shunt
  {
    var k := OpenAt(ops);
    Shunt(out + Reverse(ops[k..]), ops[..k])
  }

  /** Moving the stack top to the output leaves the entries above k going out in the same
      order. */
  lemma PopOne(out: seq<string>, ops: seq<string>, k: nat)
    requires k < |ops|
    ensures out + Reverse(ops[k..]) == (out + [ops[|ops| - 1]]) + Reverse(ops[..|ops| - 1][k..])
    ensures ops[..|ops| - 1][..k] == ops[..k]
  {
    ReverseSuffix(ops, k);
  }

  /** One iteration of the pop loop moves the stack top to the output. */
  lemma PopHigherStep(out: seq<string>, ops: seq<string>, p: nat)
    requires ops != [] && IsOperator(ops[|ops| - 1]) && OpsDict[ops[|ops| - 1]] > p
    ensures PopHigher(out, ops, p) == PopHigher(out + [ops[|ops| - 1]], ops[..|ops| - 1], p)
  {
    var k := KeepBelow(ops[..|ops| - 1], p);
    assert KeepBelow(ops, p) == k;
    PopOne(out, ops, k);
  }

  /** One iteration of the `)` loop moves the stack top to the output. */
  lemma CloseParenStep(out: seq<string>, ops: seq<string>)
    requires ops != [] && ops[|ops| - 1] != "("
    ensures CloseParen(out, ops) == CloseParen(out + [ops[|ops| - 1]], ops[..|ops| - 1])
  {
    var k := OpenAt(ops[..|ops| - 1]);
    assert OpenAt(ops) == k;
    PopOne(out, ops, k);
  }

  /** A loop that stops at once leaves output and stack unchanged. */
  lemma LoopsDone(out: seq<string>, ops: seq<string>, p: nat)
    ensures !(ops != [] && IsOperator(ops[|ops| - 1]) && OpsDict[ops[|ops| - 1]] > p) ==>
              PopHigher(out, ops, p) == Shunt(out, ops)
    ensures !(ops != [] && ops[|ops| - 1] != "(") ==> CloseParen(out, ops) == Shunt(out, ops)
  {
    assert ops[|ops|..] == [] && ops[..|ops|] == ops;
  }

  /** One token of `get_postfix` (search.py:74-93), with the pop loop guarded against an
      empty stack. */
  function ShuntStep(st: Shunt, tok: string, normalize: string -> string): Result<Shunt, ParseError>
  {
    if IsOperator(tok) then
      var popped := if st.ops != [] then PopHigher(st.out, st.ops, OpsDict[tok]) else st;
      Ok(Shunt(popped.out, popped.ops + [tok]))
    else if tok == "(" then Ok(Shunt(st.out, st.ops + ["("]))
    else if tok == ")" then
      var closed := CloseParen(st.out, st.ops);
      if closed.ops == [] then Err(Exit)
      else Ok(Shunt(closed.out, closed.ops[..|closed.ops| - 1]))
    else Ok(Shunt(st.out + [normalize(tok)], st.ops))
  }

  function ShuntAll(st: Shunt, tokens: seq<string>, normalize: string -> string): Result<Shunt, ParseError>
    decreases |tokens|
  {
    if tokens == [] then Ok(st)
    else
      match ShuntStep(st, tokens[0], normalize)
      case Err(e) => Err(e)
      case Ok(next) => ShuntAll(next, tokens[1..], normalize)
  }

  /** `get_postfix`'s result for a token list: the output queue followed by the leftover
      stack in pop order. A leftover `(` is emitted like an operator. */
  function Postfix(tokens: seq<string>, normalize: string -> string): Result<seq<string>, ParseError>
  {
    match ShuntAll(Shunt([], []), tokens, normalize)
    case Err(e) => Err(e)
    case Ok(st) => Ok(st.out + Reverse(st.ops))
  }

  /** `get_postfix` (search.py:62-97), with the pop loop at search.py:78 guarded by a
      non-empty stack. */
  method GetPostfix(infix: string, normalize: string -> string) returns (r: Result<seq<string>, ParseError>)
    ensures r == Postfix(Tokenize(infix), normalize)
  {
    var tokens := SplitString(infix);
    var operators: seq<string> := [];
    var postfix: seq<string> := [];
    for i := 0 to |tokens|
      invariant ShuntAll(Shunt(postfix, operators), tokens[i..], normalize)
             == ShuntAll(Shunt([], []), tokens, normalize)
    {
      var step := ShuntToken(postfix, operators, tokens[i], normalize);
      ShuntFrom(Shunt(postfix, operators), tokens, i, normalize);
      if step.Err? {
        return Err(step.error);
      }
      postfix, operators := step.value.out, step.value.ops;
    }
    assert tokens[|tokens|..] == [];
    r := Ok(postfix + Reverse(operators));
  }

  /** The conversion from token i on: the step on token i, then the rest. */
  lemma ShuntFrom(st: Shunt, tokens: seq<string>, i: nat, normalize: string -> string)
    requires i < |tokens|
    ensures var step := ShuntStep(st, tokens[i], normalize);
            ShuntAll(st, tokens[i..], normalize)
              == if step.Err? then Err(step.error) else ShuntAll(step.value, tokens[i + 1..], normalize)
  {
    assert tokens[i..][0] == tokens[i] && tokens[i..][1..] == tokens[i + 1..];
  }

  /** The body of `get_postfix`'s token loop (search.py:74-93). */
  method ShuntToken(postfix: seq<string>, operators: seq<string>, token: string, normalize: string -> string)
    returns (r: Result<Shunt, ParseError>)
    ensures r == ShuntStep(Shunt(postfix, operators), token, normalize)
  {
    if IsOperator(token) {
      var out, ops := postfix, operators;
      if operators != [] {
        out, ops := PopWhileHigher(postfix, operators, OpsDict[token]);
      }
      r := Ok(Shunt(out, ops + [token]));
    } else if token == "(" {
      r := Ok(Shunt(postfix, operators + [token]));
    } else if token == ")" {
      var out, ops := PopUntilOpen(postfix, operators);
      if ops == [] {
        r := Err(Exit);
      } else {
        r := Ok(Shunt(out, ops[..|ops| - 1]));
      }
    } else {
      r := Ok(Shunt(postfix + [normalize(token)], operators));
    }
  }

  /** The pop loop for an incoming operator of precedence p (search.py:78-80, guarded). */
  method PopWhileHigher(postfix: seq<string>, operators: seq<string>, p: nat)
    returns (out: seq<string>, ops: seq<string>)
    ensures Shunt(out, ops) == PopHigher(postfix, operators, p)
  {
    out, ops := postfix, operators;
    while ops != [] && IsOperator(ops[|ops| - 1]) && OpsDict[ops[|ops| - 1]] > p
      invariant PopHigher(out, ops, p) == PopHigher(postfix, operators, p)
      decreases |ops|
    {
      PopHigherStep(out, ops, p);
      out := out + [ops[|ops| - 1]];
      ops := ops[..|ops| - 1];
    }
    LoopsDone(out, ops, p);
  }

  /** The `)` loop (search.py:85-86): pop down to the topmost `(`. */
  method PopUntilOpen(postfix: seq<string>, operators: seq<string>)
    returns (out: seq<string>, ops: seq<string>)
    ensures Shunt(out, ops) == CloseParen(postfix, operators)
  {
    out, ops := postfix, operators;
    while ops != [] && ops[|ops| - 1] != "("
      invariant CloseParen(out, ops) == CloseParen(postfix, operators)
      decreases |ops|
    {
      CloseParenStep(out, ops);
      out := out + [ops[|ops| - 1]];
      ops := ops[..|ops| - 1];
    }
    LoopsDone(out, ops, 0);
  }

  // ---------------------------------------------------------------- properties

  /** An incoming NOT pops nothing: no operator binds tighter. */
  lemma NotPopsNothing(out: seq<string>, ops: seq<string>)
    ensures PopHigher(out, ops, OpsDict["NOT"]) == Shunt(out, ops)
  {
    assert forall t :: t in OpsDict ==> OpsDict[t] <= 2;
    LoopsDone(out, ops, OpsDict["NOT"]);
  }

  /** An operator of the same precedence as the incoming one stays stacked, and so does
      everything below it. */
  lemma EqualPrecedenceStays(out: seq<string>, ops: seq<string>, tok: string)
    requires IsOperator(tok) && ops != [] && IsOperator(ops[|ops| - 1])
    requires OpsDict[ops[|ops| - 1]] == OpsDict[tok]
    ensures PopHigher(out, ops, OpsDict[tok]) == Shunt(out, ops)
  {
    LoopsDone(out, ops, OpsDict[tok]);
  }

  /** The pop loop removes exactly the operators of strictly higher precedence from the top
      of the stack, and emits them top first. */
  lemma PopsStrictlyHigher(out: seq<string>, ops: seq<string>, p: nat)
    ensures var r := PopHigher(out, ops, p);
            |r.ops| <= |ops| && r.ops == ops[..|r.ops|]
            && r.out == out + Reverse(ops[|r.ops|..])
            && (forall i :: |r.ops| <= i < |ops| ==> IsOperator(ops[i]) && OpsDict[ops[i]] > p)
            && (r.ops != [] ==> !(IsOperator(r.ops[|r.ops| - 1]) && OpsDict[r.ops[|r.ops| - 1]] > p))
  {
    var k := KeepBelow(ops, p);
    if k > 0 {
      assert ops[..k][k - 1] == ops[k - 1];
    }
  }

  /** Change in parenthesis depth contributed by a token. */
  function Delta(t: string): int
  {
    if t == "(" then 1 else if t == ")" then -1 else 0
  }

  /** Opening minus closing parentheses among the tokens. */
  function Depth(ts: seq<string>): int
  {
    if ts == [] then 0 else Delta(ts[0]) + Depth(ts[1..])
  }

  /** How many `(` the stack holds. */
  function Opens(ops: seq<string>): nat
  {
    multiset(ops)["("]
  }

  /** Cutting the stack at k loses no `(` when none sits above k. */
  lemma KeepOpens(ops: seq<string>, k: nat)
    requires k <= |ops| && forall i :: k <= i < |ops| ==> ops[i] != "("
    ensures Opens(ops[..k]) == Opens(ops)
  {
    assert ops == ops[..k] + ops[k..];
    assert "(" !in ops[k..];
  }

  /** The pop loop for an operator moves no `(`. */
  lemma PopOpens(out: seq<string>, ops: seq<string>, p: nat)
    ensures Opens(PopHigher(out, ops, p).ops) == Opens(ops)
  {
    KeepOpens(ops, KeepBelow(ops, p));
  }

  /** The `)` loop stops on a `(` exactly when one is stacked, and the stack below it holds
      one `(` fewer. */
  lemma CloseOpens(out: seq<string>, ops: seq<string>)
    ensures var c := CloseParen(out, ops).ops;
            (c == [] <==> Opens(ops) == 0)
            && (c != [] ==> Opens(c[..|c| - 1]) + 1 == Opens(ops))
  {
    var k := OpenAt(ops);
    KeepOpens(ops, k);
    if k > 0 {
      assert ops[..k] == ops[..k - 1] + ["("];
      assert ops[..k][..k - 1] == ops[..k - 1];
    }
  }

  /** A step fails exactly when a `)` finds no `(` stacked, and then with `Exit`; otherwise
      the stacked `(` count moves by the token's depth change. */
  lemma StepDepth(st: Shunt, tok: string, normalize: string -> string)
    ensures ShuntStep(st, tok, normalize).Err? <==> Opens(st.ops) + Delta(tok) < 0
    ensures ShuntStep(st, tok, normalize).Err? ==> ShuntStep(st, tok, normalize).error == Exit
    ensures ShuntStep(st, tok, normalize).Ok? ==>
              Opens(ShuntStep(st, tok, normalize).value.ops) == Opens(st.ops) + Delta(tok)
  {
    ParensAreNotOperands();
    if IsOperator(tok) {
      var popped := if st.ops != [] then PopHigher(st.out, st.ops, OpsDict[tok]) else st;
      PopOpens(st.out, st.ops, OpsDict[tok]);
      assert Opens(popped.ops + [tok]) == Opens(popped.ops);
    } else if tok == ")" {
      CloseOpens(st.out, st.ops);
    } else if tok == "(" {
      assert Opens(st.ops + ["("]) == Opens(st.ops) + 1;
    }
  }

  /** The depth after the first k + 1 tokens. */
  function PrefixDepth(ts: seq<string>, k: nat): int
    requires k < |ts|
  {
    Depth(ts[..k + 1])
  }

  /** A prefix of a token list with its first token split off. */
  lemma DepthPrefix(ts: seq<string>, k: nat)
    requires k < |ts|
    ensures k == 0 ==> PrefixDepth(ts, k) == Delta(ts[0])
    ensures k > 0 ==> PrefixDepth(ts, k) == Delta(ts[0]) + PrefixDepth(ts[1..], k - 1)
  {
    assert ts[..k + 1][0] == ts[0];
    if k > 0 {
      assert ts[..k + 1][1..] == ts[1..][..k];
    } else {
      assert ts[..1][1..] == [];
      assert Depth(ts[..1]) == Delta(ts[0]) + Depth([]);
    }
  }

  /** The conversion fails exactly when some prefix of the tokens closes more parentheses
      than the stack and the prefix have opened, and then always with `Exit`. */
  lemma {:induction false} ShuntExit(st: Shunt, ts: seq<string>, normalize: string -> string)
    ensures ShuntAll(st, ts, normalize).Err?
        <==> exists k :: 0 <= k < |ts| && Opens(st.ops) + PrefixDepth(ts, k) < 0
    ensures ShuntAll(st, ts, normalize).Err? ==> ShuntAll(st, ts, normalize).error == Exit
    decreases |ts|
  {
    if ts != [] {
      var tok := ts[0];
      StepDepth(st, tok, normalize);
      DepthPrefix(ts, 0);
      var step := ShuntStep(st, tok, normalize);
      if step.Ok? {
        var next := step.value;
        var rest := ts[1..];
        ShuntExit(next, rest, normalize);
        assert ShuntAll(st, ts, normalize) == ShuntAll(next, rest, normalize);
        if exists k :: 0 <= k < |ts| && Opens(st.ops) + PrefixDepth(ts, k) < 0 {
          var k :| 0 <= k < |ts| && Opens(st.ops) + PrefixDepth(ts, k) < 0;
          DepthPrefix(ts, k);
          assert 0 <= k - 1 < |rest| && Opens(next.ops) + PrefixDepth(rest, k - 1) < 0;
        }
        if exists j :: 0 <= j < |rest| && Opens(next.ops) + PrefixDepth(rest, j) < 0 {
          var j :| 0 <= j < |rest| && Opens(next.ops) + PrefixDepth(rest, j) < 0;
          DepthPrefix(ts, j + 1);
          assert Opens(st.ops) + PrefixDepth(ts, j + 1) < 0;
        }
      }
    }
  }

  /** `get_postfix` stops with `exit()` exactly on the token lists in which some prefix has
      more `)` than `(`, and never fails otherwise. */
  lemma PostfixExit(tokens: seq<string>, normalize: string -> string)
    ensures Postfix(tokens, normalize).Err? <==> exists k :: 0 <= k < |tokens| && PrefixDepth(tokens, k) < 0
    ensures Postfix(tokens, normalize).Err? ==> Postfix(tokens, normalize).error == Exit
  {
    ShuntExit(Shunt([], []), tokens, normalize);
  }

  /** The elements of s that satisfy f, in order. */
  function Filter<T>(s: seq<T>, f: T -> bool): seq<T>
  {
    if s == [] then [] else Filter(s[..|s| - 1], f) + (if f(s[|s| - 1]) then [s[|s| - 1]] else [])
  }

  lemma {:induction false} FilterConcat<T>(a: seq<T>, b: seq<T>, f: T -> bool)
    ensures Filter(a + b, f) == Filter(a, f) + Filter(b, f)
    decreases |b|
  {
    if b == [] {
      assert a + b == a;
    } else {
      var b', x := b[..|b| - 1], b[|b| - 1];
      assert a + b == (a + b') + [x] && (a + b)[..|a + b| - 1] == a + b';
      FilterConcat(a, b', f);
    }
  }

  lemma {:induction false} FilterCount<T>(s: seq<T>, f: T -> bool, x: T)
    ensures multiset(Filter(s, f))[x] == if f(x) then multiset(s)[x] else 0
  {
    if s != [] {
      FilterCount(s[..|s| - 1], f, x);
      assert s == s[..|s| - 1] + [s[|s| - 1]];
    }
  }

  lemma {:induction false} FilterNone<T>(s: seq<T>, f: T -> bool)
    requires forall i :: 0 <= i < |s| ==> !f(s[i])
    ensures Filter(s, f) == []
  {
    if s != [] {
      FilterNone(s[..|s| - 1], f);
    }
  }

  /** `normalize` applied to each token. */
  function MapTo(normalize: string -> string, ts: seq<string>): seq<string>
  {
    seq(|ts|, i requires 0 <= i < |ts| => normalize(ts[i]))
  }

  /** The operators among the tokens, as a multiset. */
  function OpCount(s: seq<string>): multiset<string>
  {
    multiset(Filter(s, IsOperator))
  }

  lemma OpCountConcat(a: seq<string>, b: seq<string>)
    ensures OpCount(a + b) == OpCount(a) + OpCount(b)
  {
    FilterConcat(a, b, IsOperator);
  }

  lemma OpCountPerm(a: seq<string>, b: seq<string>)
    requires multiset(a) == multiset(b)
    ensures OpCount(a) == OpCount(b)
  {
    forall x ensures OpCount(a)[x] == OpCount(b)[x] {
      FilterCount(a, IsOperator, x);
      FilterCount(b, IsOperator, x);
    }
  }

  /** Lower-casing and stemming an operand never produce an operator keyword or a
      parenthesis: the result is lower case, and an operand holds no parenthesis. */
  ghost predicate Lowering(normalize: string -> string)
  {
    forall t :: IsOperand(t) ==> IsOperand(normalize(t))
  }

  /** The stack holds only operators and `(`, and the output holds no `)`. */
  predicate ShapeOk(st: Shunt)
  {
    (forall i :: 0 <= i < |st.ops| ==> Stackable(st.ops[i])) && ")" !in st.out
  }

  lemma FilterSingle<T>(x: T, f: T -> bool)
    ensures Filter([x], f) == if f(x) then [x] else []
  {
    assert [x][..0] == [];
  }

  lemma {:induction false} ReverseStackable(s: seq<string>)
    requires forall i :: 0 <= i < |s| ==> Stackable(s[i])
    ensures forall i :: 0 <= i < |Reverse(s)| ==> Stackable(Reverse(s)[i])
  {
    if s != [] {
      var init, last := s[..|s| - 1], s[|s| - 1];
      assert Stackable(last);
      ReverseStackable(init);
      var r, ri := Reverse(s), Reverse(init);
      assert r == [last] + ri;
      forall i | 0 <= i < |r| ensures Stackable(r[i]) {
        if i == 0 {
          assert r[0] == last;
        } else {
          assert r[i] == ri[i - 1];
          assert Stackable(ri[i - 1]);
        }
      }
    }
  }

  /** Stack entries moved to the output, top first, are neither operands nor `)`. */
  lemma EmitNoOperand(out: seq<string>, top: seq<string>)
    requires forall i :: 0 <= i < |top| ==> Stackable(top[i])
    ensures Filter(out + Reverse(top), IsOperand) == Filter(out, IsOperand)
    ensures ")" !in Reverse(top)
  {
    ReverseStackable(top);
    var r := Reverse(top);
    forall i | 0 <= i < |r| ensures !IsOperand(r[i]) && r[i] != ")" {
      assert Stackable(r[i]);
    }
    FilterNone(r, IsOperand);
    FilterConcat(out, r, IsOperand);
    assert Filter(out + r, IsOperand) == Filter(out, IsOperand) + [];
  }

  /** Moving the stack entries above k to the output, top first, moves their operators
      intact. */
  lemma EmitOperators(out: seq<string>, ops: seq<string>, k: nat)
    requires k <= |ops|
    ensures OpCount(out + Reverse(ops[k..])) == OpCount(out) + OpCount(ops[k..])
    ensures OpCount(ops) == OpCount(ops[..k]) + OpCount(ops[k..])
  {
    var top := ops[k..];
    OpCountConcat(out, Reverse(top));
    ReversePerm(top);
    OpCountPerm(Reverse(top), top);
    assert ops == ops[..k] + top;
    OpCountConcat(ops[..k], top);
  }

  /** Moving the stack entries above k to the output, top first, adds no operand and no
      `)` to it. */
  lemma EmitOperands(out: seq<string>, ops: seq<string>, k: nat)
    requires k <= |ops| && ShapeOk(Shunt(out, ops))
    ensures Filter(out + Reverse(ops[k..]), IsOperand) == Filter(out, IsOperand)
    ensures ")" !in out + Reverse(ops[k..])
  {
    var top := ops[k..];
    assert forall i :: 0 <= i < |top| ==> Stackable(top[i]) by {
      forall i | 0 <= i < |top| ensures Stackable(top[i]) {
        assert top[i] == ops[k + i];
      }
    }
    EmitNoOperand(out, top);
  }

  /** Going from st to next on the tokens ts appends the normalized operands of ts to the
      output's operands. */
  predicate OperandsGrow(st: Shunt, next: Shunt, ts: seq<string>, normalize: string -> string)
  {
    Filter(next.out, IsOperand) == Filter(st.out, IsOperand) + MapTo(normalize, Filter(ts, IsOperand))
  }

  /** Going from st to next on the tokens ts moves the operators of ts into output or stack. */
  predicate OperatorsMove(st: Shunt, next: Shunt, ts: seq<string>)
  {
    OpCount(next.out) + OpCount(next.ops) == OpCount(st.out) + OpCount(st.ops) + OpCount(ts)
  }

  predicate Reaches(st: Shunt, next: Shunt, ts: seq<string>, normalize: string -> string)
  {
    ShapeOk(next) && OperandsGrow(st, next, ts, normalize) && OperatorsMove(st, next, ts)
  }

  lemma OperandsTrans(a: Shunt, b: Shunt, c: Shunt, ts1: seq<string>, ts2: seq<string>,
                      normalize: string -> string)
    requires OperandsGrow(a, b, ts1, normalize) && OperandsGrow(b, c, ts2, normalize)
    ensures OperandsGrow(a, c, ts1 + ts2, normalize)
  {
    FilterConcat(ts1, ts2, IsOperand);
    var f1, f2 := Filter(ts1, IsOperand), Filter(ts2, IsOperand);
    var m1, m2 := MapTo(normalize, f1), MapTo(normalize, f2);
    assert MapTo(normalize, f1 + f2) == m1 + m2;
    var fa, fb, fc := Filter(a.out, IsOperand), Filter(b.out, IsOperand), Filter(c.out, IsOperand);
    assert fc == fb + m2 && fb == fa + m1;
    assert fc == fa + (m1 + m2);
  }

  lemma OperatorsTrans(a: Shunt, b: Shunt, c: Shunt, ts1: seq<string>, ts2: seq<string>)
    requires OperatorsMove(a, b, ts1) && OperatorsMove(b, c, ts2)
    ensures OperatorsMove(a, c, ts1 + ts2)
  {
    OpCountConcat(ts1, ts2);
    var ma, mb, mc := OpCount(a.out) + OpCount(a.ops), OpCount(b.out) + OpCount(b.ops),
                      OpCount(c.out) + OpCount(c.ops);
    var t1, t2 := OpCount(ts1), OpCount(ts2);
    assert mc == mb + t2 && mb == ma + t1;
    assert mc == ma + (t1 + t2);
  }

  lemma ReachesTrans(a: Shunt, b: Shunt, c: Shunt, ts1: seq<string>, ts2: seq<string>,
                     normalize: string -> string)
    requires Reaches(a, b, ts1, normalize) && Reaches(b, c, ts2, normalize)
    ensures Reaches(a, c, ts1 + ts2, normalize)
  {
    OperandsTrans(a, b, c, ts1, ts2, normalize);
    OperatorsTrans(a, b, c, ts1, ts2);
  }

  /** Pushing an operator or `(` after popping moves no operand. */
  lemma PopThenPushOperands(st: Shunt, k: nat, tok: string, normalize: string -> string)
    requires ShapeOk(st) && k <= |st.ops| && Stackable(tok) && !IsOperand(tok)
    ensures ShapeOk(Shunt(st.out + Reverse(st.ops[k..]), st.ops[..k] + [tok]))
    ensures OperandsGrow(st, Shunt(st.out + Reverse(st.ops[k..]), st.ops[..k] + [tok]), [tok], normalize)
  {
    var out, ops := st.out, st.ops;
    var next := Shunt(out + Reverse(ops[k..]), ops[..k] + [tok]);
    EmitOperands(out, ops, k);
    forall i | 0 <= i < |next.ops| ensures Stackable(next.ops[i]) {
      if i < k {
        assert next.ops[i] == ops[i];
      }
    }
    FilterSingle(tok, IsOperand);
    assert MapTo(normalize, []) == [];
    assert Filter(out, IsOperand) + [] == Filter(out, IsOperand);
  }

  /** Pushing an operator or `(` after popping keeps every operator and adds the pushed
      one. */
  lemma PopThenPushOperators(st: Shunt, k: nat, tok: string)
    requires k <= |st.ops|
    ensures OperatorsMove(st, Shunt(st.out + Reverse(st.ops[k..]), st.ops[..k] + [tok]), [tok])
  {
    var out, ops := st.out, st.ops;
    EmitOperators(out, ops, k);
    OpCountConcat(ops[..k], [tok]);
    var o, lo, hi, t := OpCount(out), OpCount(ops[..k]), OpCount(ops[k..]), OpCount([tok]);
    assert (o + hi) + (lo + t) == o + (lo + hi) + t;
  }

  lemma ShapeOperator(st: Shunt, tok: string, normalize: string -> string)
    requires ShapeOk(st) && IsOperator(tok)
    ensures Reaches(st, ShuntStep(st, tok, normalize).value, [tok], normalize)
  {
    var out, ops := st.out, st.ops;
    var k := if ops != [] then KeepBelow(ops, OpsDict[tok]) else 0;
    var next := Shunt(out + Reverse(ops[k..]), ops[..k] + [tok]);
    if ops == [] {
      assert ops[k..] == [] && ops[..k] == [] && Reverse([]) == [];
      assert out + [] == out;
    }
    assert ShuntStep(st, tok, normalize).value == next;
    PopThenPushOperands(st, k, tok, normalize);
    PopThenPushOperators(st, k, tok);
  }

  lemma ShapeOpen(st: Shunt, normalize: string -> string)
    requires ShapeOk(st)
    ensures Reaches(st, ShuntStep(st, "(", normalize).value, ["("], normalize)
  {
    var ops := st.ops;
    assert ops[|ops|..] == [] && ops[..|ops|] == ops && Reverse([]) == [];
    assert st.out + [] == st.out;
    var next := Shunt(st.out + Reverse(ops[|ops|..]), ops[..|ops|] + ["("]);
    assert ShuntStep(st, "(", normalize).value == next by {
      ParensAreNotOperands();
    }
    PopThenPushOperands(st, |ops|, "(", normalize);
    PopThenPushOperators(st, |ops|, "(");
  }

  lemma ParensAreNotOperands()
    ensures !IsOperator("(") && !IsOperator(")") && !IsOperand("(") && !IsOperand(")")
  {
  }

  /** Popping down to an open parenthesis and dropping it moves no operand. */
  lemma PopToOpenOperands(st: Shunt, k: nat, normalize: string -> string)
    requires ShapeOk(st) && 0 < k <= |st.ops| && st.ops[k - 1] == "("
    ensures ShapeOk(Shunt(st.out + Reverse(st.ops[k..]), st.ops[..k - 1]))
    ensures OperandsGrow(st, Shunt(st.out + Reverse(st.ops[k..]), st.ops[..k - 1]), [")"], normalize)
  {
    var out, ops := st.out, st.ops;
    EmitOperands(out, ops, k);
    ParensAreNotOperands();
    FilterSingle(")", IsOperand);
    assert MapTo(normalize, []) == [];
    assert Filter(out, IsOperand) + [] == Filter(out, IsOperand);
  }

  /** An entry without operators adds nothing to the operator count. */
  lemma OpCountNone(x: string)
    requires !IsOperator(x)
    ensures OpCount([x]) == multiset{}
  {
    FilterSingle(x, IsOperator);
  }

  lemma MultisetShuffle(o: multiset<string>, lo: multiset<string>, hi: multiset<string>)
    ensures (o + hi) + lo == o + (lo + hi)
  {
  }

  /** Popping down to an open parenthesis and dropping it keeps every operator. */
  lemma PopToOpenOperators(st: Shunt, k: nat)
    requires ShapeOk(st) && 0 < k <= |st.ops| && st.ops[k - 1] == "("
    ensures OperatorsMove(st, Shunt(st.out + Reverse(st.ops[k..]), st.ops[..k - 1]), [")"])
  {
    var out, ops := st.out, st.ops;
    EmitOperators(out, ops, k);
    ParensAreNotOperands();
    assert ops[..k] == ops[..k - 1] + ["("];
    OpCountConcat(ops[..k - 1], ["("]);
    OpCountNone("(");
    OpCountNone(")");
    MultisetShuffle(OpCount(out), OpCount(ops[..k - 1]), OpCount(ops[k..]));
  }

  lemma ShapeClose(st: Shunt, normalize: string -> string)
    requires ShapeOk(st) && ShuntStep(st, ")", normalize).Ok?
    ensures Reaches(st, ShuntStep(st, ")", normalize).value, [")"], normalize)
  {
    var k := OpenAt(st.ops);
    var next := Shunt(st.out + Reverse(st.ops[k..]), st.ops[..k - 1]);
    assert ShuntStep(st, ")", normalize).value == next by {
      ParensAreNotOperands();
    }
    PopToOpenOperands(st, k, normalize);
    PopToOpenOperators(st, k);
  }

  lemma ShapeOperand(st: Shunt, tok: string, normalize: string -> string)
    requires Lowering(normalize) && ShapeOk(st) && IsOperand(tok)
    ensures Reaches(st, ShuntStep(st, tok, normalize).value, [tok], normalize)
  {
    var x := normalize(tok);
    assert IsOperand(x);
    FilterSingle(tok, IsOperand);
    FilterSingle(tok, IsOperator);
    FilterSingle(x, IsOperand);
    FilterSingle(x, IsOperator);
    FilterConcat(st.out, [x], IsOperand);
    OpCountConcat(st.out, [x]);
    assert MapTo(normalize, [tok]) == [x];
  }

  lemma ShapeStep(st: Shunt, tok: string, normalize: string -> string)
    requires Lowering(normalize) && ShapeOk(st) && ShuntStep(st, tok, normalize).Ok?
    ensures Reaches(st, ShuntStep(st, tok, normalize).value, [tok], normalize)
  {
    if IsOperator(tok) {
      ShapeOperator(st, tok, normalize);
    } else if tok == "(" {
      ShapeOpen(st, normalize);
    } else if tok == ")" {
      ShapeClose(st, normalize);
    } else {
      ShapeOperand(st, tok, normalize);
    }
  }

  lemma ShuntAllCons(st: Shunt, ts: seq<string>, normalize: string -> string)
    requires ts != [] && ShuntAll(st, ts, normalize).Ok?
    ensures ShuntStep(st, ts[0], normalize).Ok?
    ensures ShuntAll(st, ts, normalize) == ShuntAll(ShuntStep(st, ts[0], normalize).value, ts[1..], normalize)
  {
  }

  lemma ReachesItself(st: Shunt, normalize: string -> string)
    requires ShapeOk(st)
    ensures Reaches(st, st, [], normalize)
  {
    assert Filter([], IsOperand) == [] && OpCount([]) == multiset{};
    assert MapTo(normalize, []) == [];
    assert Filter(st.out, IsOperand) + [] == Filter(st.out, IsOperand);
  }

  lemma {:induction false} ShapeAll(st: Shunt, ts: seq<string>, normalize: string -> string)
    requires Lowering(normalize) && ShapeOk(st) && ShuntAll(st, ts, normalize).Ok?
    ensures Reaches(st, ShuntAll(st, ts, normalize).value, ts, normalize)
    decreases |ts|
  {
    if ts == [] {
      ReachesItself(st, normalize);
    } else {
      ShuntAllCons(st, ts, normalize);
      var next := ShuntStep(st, ts[0], normalize).value;
      ShapeStep(st, ts[0], normalize);
      ShapeAll(next, ts[1..], normalize);
      ReachesCons(st, next, ShuntAll(st, ts, normalize).value, ts, normalize);
    }
  }

  /** Reaching through the first token and then through the rest. */
  lemma ReachesCons(st: Shunt, next: Shunt, last: Shunt, ts: seq<string>, normalize: string -> string)
    requires ts != []
    requires Reaches(st, next, [ts[0]], normalize) && Reaches(next, last, ts[1..], normalize)
    ensures Reaches(st, last, ts, normalize)
  {
    ReachesTrans(st, next, last, [ts[0]], ts[1..], normalize);
    assert [ts[0]] + ts[1..] == ts;
  }

  /** What `get_postfix` emits: the operand tokens in input order, each normalized; never a
      `)`; and exactly the input's operators, each once. */
  lemma PostfixShape(tokens: seq<string>, normalize: string -> string)
    requires Lowering(normalize) && Postfix(tokens, normalize).Ok?
    ensures var out := Postfix(tokens, normalize).value;
            Filter(out, IsOperand) == MapTo(normalize, Filter(tokens, IsOperand))
            && ")" !in out
            && OpCount(out) == OpCount(tokens)
  {
    var st := Shunt([], []);
    assert Filter([], IsOperand) == [] && OpCount([]) == multiset{};
    ShapeAll(st, tokens, normalize);
    var f := ShuntAll(st, tokens, normalize).value;
    EmitOperands(f.out, f.ops, 0);
    EmitOperators(f.out, f.ops, 0);
    assert f.ops[0..] == f.ops && f.ops[..0] == [];
  }

  // ---------------------------------------------------------------- get_postfix as written

  /** The pop loop exactly as written at search.py:78-80: it reads the stack top without
      checking that the stack is non-empty, so popping the last entry and testing again
      raises `IndexError`. */
  function PopHigherAsWritten(out: seq<string>, ops: seq<string>, p: nat): (r: Result<Shunt, ParseError>)
    ensures r == if KeepBelow(ops, p) == 0 then Err(IndexError) else Ok(PopHigher(out, ops, p))
    decreases |ops|
  {
    if ops == [] then Err(IndexError)
    else if IsOperator(ops[|ops| - 1]) && OpsDict[ops[|ops| - 1]] > p then
      PopHigherStep(out, ops, p);
      assert KeepBelow(ops, p) == KeepBelow(ops[..|ops| - 1], p);
      PopHigherAsWritten(out + [ops[|ops| - 1]], ops[..|ops| - 1], p)
    else
      LoopsDone(out, ops, p);
      Ok(Shunt(out, ops))
  }

  /** One token of `get_postfix` as written: the pop loop is entered only when the stack is
      non-empty (search.py:77), but may run it dry. */
  function ShuntStepAsWritten(st: Shunt, tok: string, normalize: string -> string): Result<Shunt, ParseError>
  {
    if IsOperator(tok) then
      if st.ops == [] then Ok(Shunt(st.out, [tok]))
      else
        match PopHigherAsWritten(st.out, st.ops, OpsDict[tok])
        case Err(e) => Err(e)
        case Ok(popped) => Ok(Shunt(popped.out, popped.ops + [tok]))
    else ShuntStep(st, tok, normalize)
  }

  function ShuntAllAsWritten(st: Shunt, tokens: seq<string>, normalize: string -> string)
    : Result<Shunt, ParseError>
    decreases |tokens|
  {
    if tokens == [] then Ok(st)
    else
      match ShuntStepAsWritten(st, tokens[0], normalize)
      case Err(e) => Err(e)
      case Ok(next) => ShuntAllAsWritten(next, tokens[1..], normalize)
  }

  function PostfixAsWritten(tokens: seq<string>, normalize: string -> string): Result<seq<string>, ParseError>
  {
    match ShuntAllAsWritten(Shunt([], []), tokens, normalize)
    case Err(e) => Err(e)
    case Ok(st) => Ok(st.out + Reverse(st.ops))
  }

  /** A step as written either crashes with `IndexError`, exactly when an incoming operator
      pops every entry of a non-empty stack, or does what the guarded step does. */
  lemma StepAsWrittenAgrees(st: Shunt, tok: string, normalize: string -> string)
    ensures ShuntStepAsWritten(st, tok, normalize) == Err(IndexError)
        <==> IsOperator(tok) && st.ops != [] && KeepBelow(st.ops, OpsDict[tok]) == 0
    ensures ShuntStepAsWritten(st, tok, normalize) != Err(IndexError) ==>
              ShuntStepAsWritten(st, tok, normalize) == ShuntStep(st, tok, normalize)
  {
    if IsOperator(tok) && st.ops == [] {
      assert st.ops + [tok] == [tok];
    }
  }

  /** `get_postfix` as written agrees with the guarded conversion on every input on which
      it does not crash. */
  lemma {:induction false} AsWrittenAgrees(st: Shunt, tokens: seq<string>, normalize: string -> string)
    ensures ShuntAllAsWritten(st, tokens, normalize) != Err(IndexError) ==>
              ShuntAllAsWritten(st, tokens, normalize) == ShuntAll(st, tokens, normalize)
    decreases |tokens|
  {
    if tokens != [] {
      StepAsWrittenAgrees(st, tokens[0], normalize);
      var r := ShuntStepAsWritten(st, tokens[0], normalize);
      if r.Ok? {
        AsWrittenAgrees(r.value, tokens[1..], normalize);
      }
    }
  }

  /** The guarded conversion's state after `a AND b`. */
  lemma FirstThreeTokens(normalize: string -> string)
    ensures ShuntAll(Shunt([], []), ["a", "AND", "b", "OR", "c"], normalize)
         == ShuntAll(Shunt([normalize("a"), normalize("b")], ["AND"]), ["OR", "c"], normalize)
  {
    var t := ["a", "AND", "b", "OR", "c"];
    assert !IsOperator("a") && !IsOperator("b") && IsOperator("AND");
    assert "a"[0] != "("[0] && "a"[0] != ")"[0] && "b"[0] != "("[0] && "b"[0] != ")"[0];
    var s1 := Shunt([normalize("a")], []);
    var s2 := Shunt([normalize("a")], ["AND"]);
    var s3 := Shunt([normalize("a"), normalize("b")], ["AND"]);
    assert [] + [normalize("a")] == [normalize("a")] && [] + ["AND"] == ["AND"];
    assert s2.out + [normalize("b")] == s3.out;
    assert ShuntStep(Shunt([], []), "a", normalize) == Ok(s1);
    assert ShuntStep(s1, "AND", normalize) == Ok(s2);
    assert ShuntStep(s2, "b", normalize) == Ok(s3);
    assert t[1..] == ["AND", "b", "OR", "c"] && t[1..][1..] == ["b", "OR", "c"];
    assert t[1..][1..][1..] == ["OR", "c"];
  }

  /** The state after `a AND b` as written: the same as the guarded one. */
  lemma FirstThreeAsWritten(normalize: string -> string)
    ensures ShuntAllAsWritten(Shunt([], []), ["a", "AND", "b", "OR", "c"], normalize)
         == ShuntAllAsWritten(Shunt([normalize("a"), normalize("b")], ["AND"]), ["OR", "c"], normalize)
  {
    var t := ["a", "AND", "b", "OR", "c"];
    assert !IsOperator("a") && !IsOperator("b") && IsOperator("AND");
    assert "a"[0] != "("[0] && "a"[0] != ")"[0] && "b"[0] != "("[0] && "b"[0] != ")"[0];
    var s1 := Shunt([normalize("a")], []);
    var s2 := Shunt([normalize("a")], ["AND"]);
    var s3 := Shunt([normalize("a"), normalize("b")], ["AND"]);
    assert [] + [normalize("a")] == [normalize("a")] && [] + ["AND"] == ["AND"];
    assert s2.out + [normalize("b")] == s3.out;
    assert ShuntStepAsWritten(Shunt([], []), "a", normalize) == Ok(s1);
    assert ShuntStepAsWritten(s1, "AND", normalize) == Ok(s2);
    assert ShuntStepAsWritten(s2, "b", normalize) == Ok(s3);
    assert t[1..] == ["AND", "b", "OR", "c"] && t[1..][1..] == ["b", "OR", "c"];
    assert t[1..][1..][1..] == ["OR", "c"];
  }

  /** Finding: for `a AND b OR c` the incoming OR pops AND, leaving the stack empty, and the
      loop test then reads the top of the empty stack. */
  lemma AsWrittenCrashes(normalize: string -> string)
    ensures PostfixAsWritten(["a", "AND", "b", "OR", "c"], normalize) == Err(IndexError)
  {
    FirstThreeAsWritten(normalize);
    var s3 := Shunt([normalize("a"), normalize("b")], ["AND"]);
    assert IsOperator("OR");
    assert KeepBelow(["AND"], 0) == KeepBelow([], 0) == 0;
    assert ShuntStepAsWritten(s3, "OR", normalize) == Err(IndexError);
  }

  /** The guarded conversion of the remaining `OR c`: OR pops AND, then c is emitted. */
  lemma LastTwoTokens(normalize: string -> string)
    ensures ShuntAll(Shunt([normalize("a"), normalize("b")], ["AND"]), ["OR", "c"], normalize)
         == Ok(Shunt([normalize("a"), normalize("b"), "AND", normalize("c")], ["OR"]))
  {
    var s3 := Shunt([normalize("a"), normalize("b")], ["AND"]);
    var s4 := Shunt([normalize("a"), normalize("b"), "AND"], ["OR"]);
    var s5 := Shunt([normalize("a"), normalize("b"), "AND", normalize("c")], ["OR"]);
    assert IsOperator("OR") && !IsOperator("c");
    assert "c"[0] != "("[0] && "c"[0] != ")"[0];
    assert KeepBelow(["AND"], 0) == KeepBelow([], 0) == 0;
    assert ["AND"][0..] == ["AND"] && ["AND"][..0] == [];
    assert Reverse(["AND"]) == ["AND"];
    assert PopHigher(s3.out, s3.ops, 0) == Shunt([normalize("a"), normalize("b"), "AND"], []);
    assert [] + ["OR"] == ["OR"];
    assert ShuntStep(s3, "OR", normalize) == Ok(s4);
    assert s4.out + [normalize("c")] == s5.out;
    assert ShuntStep(s4, "c", normalize) == Ok(s5);
    assert ["OR", "c"][1..] == ["c"] && ["c"][1..] == [];
  }

  /** The conversion's output once the token loop has ended in st. */
  lemma PostfixOf(tokens: seq<string>, st: Shunt, normalize: string -> string)
    requires ShuntAll(Shunt([], []), tokens, normalize) == Ok(st)
    ensures Postfix(tokens, normalize) == Ok(st.out + Reverse(st.ops))
  {
  }

  /** The guarded conversion turns `a AND b OR c` into `a b AND c OR`. */
  lemma GuardedConverts(normalize: string -> string)
    ensures Postfix(["a", "AND", "b", "OR", "c"], normalize)
         == Ok([normalize("a"), normalize("b"), "AND", normalize("c"), "OR"])
  {
    FirstThreeTokens(normalize);
    LastTwoTokens(normalize);
    var out := [normalize("a"), normalize("b"), "AND", normalize("c")];
    PostfixOf(["a", "AND", "b", "OR", "c"], Shunt(out, ["OR"]), normalize);
    ReverseSingle("OR");
    assert out + ["OR"] == [normalize("a"), normalize("b"), "AND", normalize("c"), "OR"];
  }
}
