/** The operator table shared by the parser and the evaluator (`ops_dict`, search.py:13). */
module Operators {
  /** Each boolean operator and its precedence: OR binds loosest, NOT tightest. */
  const OpsDict: map<string, nat> := map["OR" := 0, "AND" := 1, "NOT" := 2]

  predicate IsOperator(tok: string)
  {
    tok in OpsDict
  }

  /** The operators and nothing else are keys of the table, and their precedences are
      strictly ordered OR < AND < NOT. */
  lemma OperatorTable()
    ensures forall tok :: IsOperator(tok) <==> tok == "OR" || tok == "AND" || tok == "NOT"
    ensures OpsDict["OR"] < OpsDict["AND"] < OpsDict["NOT"]
  {
  }
}
