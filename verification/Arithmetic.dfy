/** Arithmetic expansion as a whole: the running evaluator against the meaning of trees. */
module Arithmetic {
  import opened Int64
  import opened ExprMachine
  import opened ExprTree
  import opened ExprParse
  import opened Precedence
  import opened ExprEval

  /** Evaluating the text of a tree by the precedence table, with integer variables. */
  method EvaluateTree(e: Expr, m: Env) returns (valid: bool, val: word, variables: ExprMachine.Store)
    requires WellFormed(e)
    ensures var r := Observed(Eval(e, m), Stumble(e, m));
            && (r.Value? ==> valid && val == r.v) && (r.Error? ==> !valid && val == 0)
            && variables == Text(r.m)
  {
    var evaluator := new Evaluator(Text(m));
    valid, val := evaluator.EvalExp(Written(e));
    variables := evaluator.store;
    TableDecides(e, m);
  }
}
