/**
 * The accept/reject logic of evalExpression, the JNI entry point of
 * cocalc/app/src/main/cpp/native-lib.cpp: close the parentheses left open,
 * parse one expression, and accept it only if nothing but spaces follows.
 * A rejected expression is the text "ERR" in the source; here it is None.
 */
module Evaluator {
  import opened Wrappers
  import opened Numerals
  import opened Parens
  import opened Parser

  /** The string the parser sees: `expr` with its open parentheses closed. */
  function Closed(expr: string): (t: string)
    requires NoDeficit(expr, 0)
    ensures Balance(t) == 0 && NoDeficit(t, 0)
    ensures |t| >= |expr| && t[..|expr|] == expr
  {
    NormalizedBalanced(expr);
    var t := expr + Closers(Balance(expr));
    assert t[..|expr|] == expr;
    t
  }

  /**
   * What evalExpression computes before formatting: None ("ERR") when a
   * prefix closes a parenthesis that is not open, when the closed string
   * does not parse as an expression, or when anything but spaces follows it.
   */
  function Evaluate(expr: string): Option<real> {
    if !NoDeficit(expr, 0) then None
    else
      var t := Closed(expr);
      match Expr(t, 0)
      case None => None
      case Some(p) => if Skip(t, p.next) == |t| then Some(p.value) else None
  }

  /** evalExpression, up to the formatting of the result. */
  method EvalExpression(expr: string) returns (r: Option<real>)
    ensures r == Evaluate(expr)
  {
    var ok, t := NormalizeParens(expr);
    if !ok {
      return None;
    }
    var i, result;
    ok, i, result := ParseExpr(t, 0);
    i := SkipSpaces(t, i);
    if !ok || i != |t| {
      return None;
    }
    return Some(result);
  }

  /**
   * Typing the closing parentheses oneself changes nothing: the closed
   * string needs no closing, and evaluates as the original does.
   */
  lemma AutoCloseAgrees(expr: string)
    requires NoDeficit(expr, 0)
    ensures NoDeficit(Closed(expr), 0) && Closed(Closed(expr)) == Closed(expr)
    ensures Evaluate(Closed(expr)) == Evaluate(expr)
  {
    var t := Closed(expr);
    assert Closers(0) == [];
    assert t + Closers(Balance(t)) == t;
  }
}
