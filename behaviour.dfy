/**
 * Inputs the evaluator of cocalc/app/src/main/cpp/native-lib.cpp accepts
 * or rejects beyond the printed formulas of Arith: open parentheses closed
 * at the end, a sign after an operator, repeated '%', and the texts it
 * answers with "ERR".
 */
module Behaviour {
  import opened Wrappers
  import opened Numerals
  import opened Parens
  import opened Parser
  import opened Evaluator
  import opened Arith

  /** "2*(3+4" leaves exactly one parenthesis open. */
  lemma OneLeftOpen()
    ensures NoDeficit("2*(3+4", 0) && Balance("2*(3+4") == 1
  {
    assert NoDeficit("(", 0) && Balance("(") == 1 by {
      assert forall k :: 0 <= k <= 1 ==> "("[..k] == [] || "("[..k] == "(";
    }
    hide NoDeficit, Balance;
    NoParensBalanced("2*", 0);
    NoDeficitConcat("2*", "(", 0);
    NoParensBalanced("3+4", 1);
    NoDeficitConcat("2*(", "3+4", 0);
    assert "2*(" + "3+4" == "2*(3+4";
  }

  /** A parenthesis left open is closed at the end. */
  lemma OpenGroupClosed()
    ensures Evaluate("2*(3+4") == Some(14.0)
  {
    hide Expr, ExprLoop, Term, TermLoop, Factor, Number, Percents, Evaluate, NoDeficit, Balance;
    var s := "2*(3+4";
    OneLeftOpen();
    assert Closed(s) == "2*(3+4)";
    AutoCloseAgrees(s);
    GroupLast();
  }

  /**
   * A sign after a binary operator is a unary sign: "2++3" is 2 + (+3),
   * accepted rather than rejected as two operators in a row.
   */
  lemma SignAfterOperator()
    ensures Evaluate("2++3") == Some(5.0)
  {
    hide Expr, ExprLoop, Term, TermLoop, Factor, Number, Percents, NoDeficit, Balance;
    var s := "2++3";
    NoParensBalanced(s, 0);
    assert Closed(s) == s;
    assert NatDigits(2) == "2" && NatDigits(3) == "3";
    FactorOfLit(s, 3, 3);
    FactorUnfold(s, 2);
    PercentsAtBoundary(s, 4, 3.0);
    TermUnfold(s, 2);
    TermLoopAtBoundary(s, 4, 3.0);
    FactorOfLit(s, 0, 2);
    TermUnfold(s, 0);
    TermLoopAtBoundary(s, 1, 2.0);
    ExprUnfold(s, 0);
    ExprLoopUnfold(s, 1, 2.0);
    ExprLoopAtClose(s, 4, 5.0);
  }

  /** Each '%' divides by 100 once more. */
  lemma PercentTwice()
    ensures Evaluate("50%%") == Some(0.005)
  {
    hide Expr, ExprLoop, Term, TermLoop, Factor, Number, Percents, NoDeficit, Balance;
    var s := "50%%";
    NoParensBalanced(s, 0);
    assert Closed(s) == s;
    assert NatDigits(50) == "50";
    NumberReadsLiteral(s, 0, 50);
    FactorUnfold(s, 0);
    PercentsUnfold(s, 2, 50.0);
    PercentsUnfold(s, 3, 0.5);
    PercentsUnfold(s, 4, 0.005);
    TermUnfold(s, 0);
    TermLoopAtBoundary(s, 4, 0.005);
    ExprUnfold(s, 0);
    ExprLoopAtClose(s, 4, 0.005);
  }

  /** Two numbers with only a space between them are rejected. */
  lemma NumbersApartRejected()
    ensures Evaluate("2 3") == None
  {
    hide Expr, ExprLoop, Term, TermLoop, Factor, Number, Percents, NoDeficit, Balance;
    var s := "2 3";
    NoParensBalanced(s, 0);
    assert Closed(s) == s;
    assert NatDigits(2) == "2";
    NumberReadsLiteral(s, 0, 2);
    FactorUnfold(s, 0);
    PercentsUnfold(s, 1, 2.0);
    TermUnfold(s, 0);
    TermLoopUnfold(s, 2, 2.0);
    ExprUnfold(s, 0);
    ExprLoopUnfold(s, 2, 2.0);
  }

  /** A second '.' ends the number, and the rest is rejected. */
  lemma SecondDotRejected()
    ensures Evaluate("1.2.3") == None
  {
    hide Expr, ExprLoop, Term, TermLoop, Factor, Number, Percents, NoDeficit, Balance;
    var s := "1.2.3";
    NoParensBalanced(s, 0);
    assert Closed(s) == s;
    NumberUnfold(s, 0);
    assert DigitsEnd(s, 0) == 1 && DigitsEnd(s, 2) == 3;
    var v := NumeralValue(s[0..3]);
    assert Number(s, 0) == Some(Parsed(v, 3));
    FactorUnfold(s, 0);
    PercentsUnfold(s, 3, v);
    TermUnfold(s, 0);
    TermLoopUnfold(s, 3, v);
    ExprUnfold(s, 0);
    ExprLoopUnfold(s, 3, v);
  }

  /** A '.' right after a number's '.' is rejected too: "1..5" is "ERR". */
  lemma DoubleDotRejected()
    ensures Evaluate("1..5") == None
  {
    hide Expr, ExprLoop, Term, TermLoop, Factor, Number, Percents, NoDeficit, Balance;
    var s := "1..5";
    NoParensBalanced(s, 0);
    assert Closed(s) == s;
    NumberUnfold(s, 0);
    assert DigitsEnd(s, 0) == 1 && DigitsEnd(s, 2) == 2;
    var v := NumeralValue(s[0..2]);
    assert Number(s, 0) == Some(Parsed(v, 2));
    FactorUnfold(s, 0);
    PercentsUnfold(s, 2, v);
    TermUnfold(s, 0);
    TermLoopUnfold(s, 2, v);
    ExprUnfold(s, 0);
    ExprLoopUnfold(s, 2, v);
  }

  /** An operator with nothing after it is rejected. */
  lemma TrailingOperatorRejected()
    ensures Evaluate("2+") == None
  {
  }

  /** Empty parentheses are rejected. */
  lemma EmptyGroupRejected()
    ensures Evaluate("()") == None
  {
  }

  /** A ')' before any '(' is rejected, whatever follows. */
  lemma CloserFirstRejected()
    ensures Evaluate(")(") == None
  {
  }

  /** A ')' with no '(' left to close is rejected: "(1))" is "ERR". */
  lemma ExtraCloserRejected()
    ensures Evaluate("(1))") == None
  {
    var s := "(1))";
    assert s[..4] == s;
    assert Balance(s) == -1 by {
      assert multiset(s) == multiset{'(', '1', ')', ')'};
    }
    assert !NoDeficit(s, 0);
  }

  /** The empty text is rejected. */
  lemma EmptyRejected()
    ensures Evaluate("") == None
  {
  }
}
