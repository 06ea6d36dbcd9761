/**
 * The keypad and the evaluator together: a formula typed in full and then
 * '=' leaves on the screen the formatted value of the formula, or, when the
 * formula divides by zero, the formula itself.
 */
module Session {
  import opened Wrappers
  import opened Numerals
  import opened Evaluator
  import opened Arith
  import opened Keypad

  /**
   * A printed formula starts with a digit, '-' or '(' and ends with a
   * digit, ')' or '%'.
   */
  lemma {:induction false} ShowEnds(e: Formula, level: Level)
    ensures var t := Show(e, level);
      && |t| > 0
      && (IsDigit(t[0]) || t[0] == '-' || t[0] == '(')
      && (IsDigit(t[|t| - 1]) || t[|t| - 1] == ')' || t[|t| - 1] == '%')
  {
    hide Show, NatDigits;
    ShowUnfold(e, level);
    match e
    case Lit(n) =>
    case Neg(a) =>
      ShowEnds(a, AtFactor);
    case Pct(a) =>
    case Bin(op, a, b) =>
      ShowEnds(a, if IsAdditive(op) then AtSum else AtProduct);
      ShowEnds(b, if IsAdditive(op) then AtProduct else AtFactor);
  }

  /** A printed formula is a text '=' accepts to evaluate. */
  lemma ShowComplete(e: Formula)
    ensures Complete(Show(e, AtSum))
  {
    ShowEnds(e, AtSum);
  }

  /**
   * '=' on a fully typed formula shows its value as `format` writes it,
   * with the cursor at the end; a division by zero (or a value `format`
   * writes as "ERR") leaves the screen as it was.
   */
  lemma EqualsOnFormula(e: Formula, st: Screen, format: real -> string)
    requires st.expr == Show(e, AtSum)
    ensures Eval(e).Some? && format(Eval(e).value) != "ERR" ==>
      AfterEquals(st, format) == Screen(format(Eval(e).value), |format(Eval(e).value)|, true)
    ensures Eval(e).None? || format(Eval(e).value) == "ERR" ==> AfterEquals(st, format) == st
  {
    hide Show, Eval, Evaluate;
    ShowComplete(e);
    ShowEvaluates(e);
    EqualsOutcome(st, format);
  }
}
