/**
 * An independent account of what the evaluator should compute: formulas as
 * trees, their values, and a printer that writes a formula the way a user
 * would type it, with the parentheses that operator precedence requires.
 * The main theorem, ShowEvaluates, says that the evaluator of
 * cocalc/app/src/main/cpp/native-lib.cpp gives every printed formula the
 * value of the tree: '*' and '/' bind tighter than '+' and '-', both pairs
 * group to the left, unary minus and postfix '%' apply to one factor, and
 * a division by zero is an error.
 */
module Arith {
  import opened Wrappers
  import opened Numerals
  import opened Parens
  import opened Parser
  import opened Evaluator

  datatype BinOp = Add | Sub | Mul | Div

  /** A formula over natural-number literals. */
  datatype Formula =
    | Lit(n: nat)
    | Neg(a: Formula)
    | Pct(a: Formula)
    | Bin(op: BinOp, l: Formula, r: Formula)

  predicate IsAdditive(op: BinOp) {
    op == Add || op == Sub
  }

  function OpChar(op: BinOp): char {
    match op
    case Add => '+'
    case Sub => '-'
    case Mul => '*'
    case Div => '/'
  }

  /** The value of a formula; None when it divides by zero. */
  function Eval(e: Formula): Option<real> {
    match e
    case Lit(n) => Some(n as real)
    case Neg(a) =>
      (match Eval(a)
       case None => None
       case Some(v) => Some(-v))
    case Pct(a) =>
      (match Eval(a)
       case None => None
       case Some(v) => Some(v / 100.0))
    case Bin(op, a, b) =>
      var x, y := Eval(a), Eval(b);
      if x.None? || y.None? then None else Apply(op, x.value, y.value)
  }

  /** A binary operator applied to two values; dividing by zero fails. */
  function Apply(op: BinOp, x: real, y: real): Option<real> {
    match op
    case Add => Some(x + y)
    case Sub => Some(x - y)
    case Mul => Some(Product(x, y))
    case Div => if y == 0.0 then None else Some(x / y)
  }

  /**
   * Where a formula is printed: as a whole expression, as an operand of
   * '*' or '/', or as an operand of unary minus.
   */
  datatype Level = AtSum | AtProduct | AtFactor

  /**
   * The formula as typed: a sum is parenthesised inside a product or a
   * factor, a product inside a factor, the right operand of each operator
   * one level tighter than its left (so both groups associate to the left),
   * and the operand of '%' is a literal or parenthesised.
   */
  function Show(e: Formula, level: Level): string {
    match e
    case Lit(n) => NatDigits(n)
    case Neg(a) => "-" + Show(a, AtFactor)
    case Pct(a) => if a.Lit? then NatDigits(a.n) + "%" else "(" + Show(a, AtSum) + ")%"
    case Bin(op, a, b) =>
      if IsAdditive(op) then
        var core := Show(a, AtSum) + [OpChar(op)] + Show(b, AtProduct);
        if level == AtSum then core else "(" + core + ")"
      else
        var core := Show(a, AtProduct) + [OpChar(op)] + Show(b, AtFactor);
        if level == AtFactor then "(" + core + ")" else core
  }

  lemma ShowUnfold(e: Formula, level: Level)
    ensures Show(e, level) ==
      match e
      case Lit(n) => NatDigits(n)
      case Neg(a) => "-" + Show(a, AtFactor)
      case Pct(a) => if a.Lit? then NatDigits(a.n) + "%" else "(" + Show(a, AtSum) + ")%"
      case Bin(op, a, b) =>
        if IsAdditive(op) then
          var core := Show(a, AtSum) + [OpChar(op)] + Show(b, AtProduct);
          if level == AtSum then core else "(" + core + ")"
        else
          var core := Show(a, AtProduct) + [OpChar(op)] + Show(b, AtFactor);
          if level == AtFactor then "(" + core + ")" else core
  {
  }

  /** A character that may follow a formula printed at `level`. */
  predicate Boundary(s: string, end: nat, level: Level) {
    end == |s| ||
    (end < |s| && (s[end] == ')' || s[end] == '+' || s[end] == '-' ||
                   (level != AtSum && (s[end] == '*' || s[end] == '/'))))
  }

  /** `s` holds Show(e, level) from `i` on, followed by a boundary. */
  predicate Placed(s: string, i: nat, e: Formula, level: Level) {
    var t := Show(e, level);
    i + |t| <= |s| && s[i..i + |t|] == t && Boundary(s, i + |t|, level)
  }

  /**
   * The order in which the three parse lemmas below visit one formula: a
   * sum goes from factor to expression, a product from factor to
   * expression to term, anything else from expression to term to factor.
   */
  function Rank(e: Formula, level: Level): nat {
    if e.Bin? && IsAdditive(e.op) then
      (match level case AtSum => 0 case AtFactor => 1 case AtProduct => 2)
    else if e.Bin? then
      (match level case AtProduct => 0 case AtSum => 1 case AtFactor => 2)
    else
      (match level case AtFactor => 0 case AtProduct => 1 case AtSum => 2)
  }

  lemma PieceAt(s: string, i: nat, t: string, m: nat)
    requires i + |t| <= |s| && s[i..i + |t|] == t && m < |t|
    ensures s[i + m] == t[m]
  {
    assert s[i..i + |t|][m] == s[i + m];
  }

  /** The two halves of a concatenation placed in `s`. */
  lemma SplitAt(s: string, i: nat, x: string, y: string)
    requires i + |x| + |y| <= |s| && s[i..i + |x| + |y|] == x + y
    ensures s[i..i + |x|] == x
    ensures s[i + |x|..i + |x| + |y|] == y
  {
    assert s[i..i + |x|] == s[i..i + |x| + |y|][..|x|];
    assert s[i + |x|..i + |x| + |y|] == s[i..i + |x| + |y|][|x|..];
  }

  /** A parse step that yields the value `r`, if any, and stops at `end`. */
  function At(r: Option<real>, end: nat): Option<Parsed> {
    match r
    case None => None
    case Some(v) => Some(Parsed(v, end))
  }

  /** The value `r`, if any, handed to the '*' / '/' loop at `end`. */
  function ThenTermLoop(s: string, r: Option<real>, end: nat): Option<Parsed>
    requires end <= |s|
  {
    match r
    case None => None
    case Some(v) => TermLoop(s, end, v)
  }

  /** The value `r`, if any, handed to the '+' / '-' loop at `end`. */
  function ThenExprLoop(s: string, r: Option<real>, end: nat): Option<Parsed>
    requires end <= |s|
  {
    match r
    case None => None
    case Some(v) => ExprLoop(s, end, v)
  }

  /** The pieces of a parenthesised text placed in `s`. */
  lemma Wrapped(s: string, i: nat, u: string, post: string)
    requires i + 1 + |u| + |post| <= |s| && s[i..i + 1 + |u| + |post|] == "(" + u + post
    ensures s[i] == '(' && s[i + 1..i + 1 + |u|] == u
    ensures forall m :: 0 <= m < |post| ==> s[i + 1 + |u| + m] == post[m]
  {
    var w := s[i..i + 1 + |u| + |post|];
    assert w[0] == s[i];
    forall m | 0 <= m < |u|
      ensures s[i + 1 + m] == u[m]
    {
      assert w[1 + m] == s[i + 1 + m];
    }
    assert s[i + 1..i + 1 + |u|] == u;
    forall m | 0 <= m < |post|
      ensures s[i + 1 + |u| + m] == post[m]
    {
      assert w[1 + |u| + m] == s[i + 1 + |u| + m];
    }
  }

  /** After a factor, at a boundary, the '%' loop stops at once. */
  lemma PercentsAtBoundary(s: string, end: nat, v: real)
    requires end <= |s| && Boundary(s, end, AtFactor)
    ensures Percents(s, end, v) == Parsed(v, end)
  {
    hide Factor, Term, TermLoop, Expr, ExprLoop, Number, Percents, NatDigits;
    PercentsUnfold(s, end, v);
  }

  /** At a boundary of a sum the '*' / '/' loop stops at once. */
  lemma TermLoopAtBoundary(s: string, end: nat, v: real)
    requires end <= |s| && Boundary(s, end, AtSum)
    ensures TermLoop(s, end, v) == Some(Parsed(v, end))
  {
    hide Factor, Term, TermLoop, Expr, ExprLoop, Number, Percents, NatDigits;
    TermLoopUnfold(s, end, v);
  }

  /** Before a ')' or at the end the '+' / '-' loop stops at once. */
  lemma ExprLoopAtClose(s: string, end: nat, v: real)
    requires end == |s| || (end < |s| && s[end] == ')')
    ensures ExprLoop(s, end, v) == Some(Parsed(v, end))
  {
    hide Factor, Term, TermLoop, Expr, ExprLoop, Number, Percents, NatDigits;
    ExprLoopUnfold(s, end, v);
  }

  /** parseNumber reads the decimal spelling of `n` back as `n`. */
  lemma NumberReadsLiteral(s: string, i: nat, n: nat)
    requires i + |NatDigits(n)| <= |s| && s[i..i + |NatDigits(n)|] == NatDigits(n)
    requires var end := i + |NatDigits(n)|; end == |s| || (!IsDigit(s[end]) && s[end] != '.')
    ensures Number(s, i) == Some(Parsed(n as real, i + |NatDigits(n)|))
  {
    hide Factor, Term, TermLoop, Expr, ExprLoop, Number, Percents, NatDigits;
    var t := NatDigits(n);
    var end := i + |t|;
    forall k | i <= k < end
      ensures IsDigit(s[k])
    {
      PieceAt(s, i, t, k - i);
    }
    DigitsEndAt(s, i, end);
    NatDigitsNumeral(n);
    NumberUnfold(s, i);
  }

  // One lemma per way a formula can be read, each taking what the parse of
  // its parts yields as a premise.

  lemma FactorOfLit(s: string, i: nat, n: nat)
    requires Placed(s, i, Lit(n), AtFactor)
    ensures Factor(s, i) == At(Eval(Lit(n)), i + |NatDigits(n)|)
  {
    hide Factor, Term, TermLoop, Expr, ExprLoop, Number, Percents, NatDigits;
    var t := NatDigits(n);
    PieceAt(s, i, t, 0);
    FactorUnfold(s, i);
    NumberReadsLiteral(s, i, n);
    PercentsAtBoundary(s, i + |t|, n as real);
  }

  lemma FactorOfNeg(s: string, i: nat, a: Formula, end: nat)
    requires i < end <= |s| && s[i] == '-' && Boundary(s, end, AtFactor)
    requires Factor(s, i + 1) == At(Eval(a), end)
    ensures Factor(s, i) == At(Eval(Neg(a)), end)
  {
    hide Factor, Term, TermLoop, Expr, ExprLoop, Number, Percents, NatDigits;
    FactorUnfold(s, i);
    if Eval(a).Some? {
      PercentsAtBoundary(s, end, -Eval(a).value);
    }
  }

  lemma FactorOfPercentLit(s: string, i: nat, n: nat)
    requires var t := NatDigits(n);
      i + |t| + 1 <= |s| && s[i..i + |t|] == t && s[i + |t|] == '%' &&
      Boundary(s, i + |t| + 1, AtFactor)
    ensures Factor(s, i) == At(Eval(Pct(Lit(n))), i + |NatDigits(n)| + 1)
  {
    hide Factor, Term, TermLoop, Expr, ExprLoop, Number, Percents, NatDigits;
    var t := NatDigits(n);
    var end := i + |t| + 1;
    PieceAt(s, i, t, 0);
    FactorUnfold(s, i);
    NumberReadsLiteral(s, i, n);
    PercentsUnfold(s, end - 1, n as real);
    PercentsAtBoundary(s, end, n as real / 100.0);
  }

  lemma FactorOfGroup(s: string, i: nat, e: Formula, close: nat)
    requires i < close < |s| && s[i] == '(' && s[close] == ')'
    requires Boundary(s, close + 1, AtFactor)
    requires Expr(s, i + 1) == ThenExprLoop(s, Eval(e), close)
    ensures Factor(s, i) == At(Eval(e), close + 1)
  {
    hide Factor, Term, TermLoop, Expr, ExprLoop, Number, Percents, NatDigits;
    FactorUnfold(s, i);
    if Eval(e).Some? {
      ExprLoopAtClose(s, close, Eval(e).value);
      PercentsAtBoundary(s, close + 1, Eval(e).value);
    }
  }

  lemma FactorOfPercentGroup(s: string, i: nat, a: Formula, close: nat)
    requires i < close && close + 1 < |s| && s[i] == '(' && s[close] == ')' && s[close + 1] == '%'
    requires Boundary(s, close + 2, AtFactor)
    requires Expr(s, i + 1) == ThenExprLoop(s, Eval(a), close)
    ensures Factor(s, i) == At(Eval(Pct(a)), close + 2)
  {
    hide Factor, Term, TermLoop, Expr, ExprLoop, Number, Percents, NatDigits;
    FactorUnfold(s, i);
    if Eval(a).Some? {
      var v := Eval(a).value;
      ExprLoopAtClose(s, close, v);
      PercentsUnfold(s, close + 1, v);
      PercentsAtBoundary(s, close + 2, v / 100.0);
    }
  }

  lemma TermOfFactor(s: string, i: nat, e: Formula, end: nat)
    requires i <= end <= |s|
    requires Factor(s, i) == At(Eval(e), end)
    ensures Term(s, i) == ThenTermLoop(s, Eval(e), end)
  {
    hide Factor, Term, TermLoop, Expr, ExprLoop, Number, Percents, NatDigits;
    TermUnfold(s, i);
  }

  lemma TermOfProduct(s: string, i: nat, op: BinOp, a: Formula, b: Formula, mid: nat, end: nat)
    requires !IsAdditive(op)
    requires i <= mid < end <= |s| && s[mid] == OpChar(op)
    requires Term(s, i) == ThenTermLoop(s, Eval(a), mid)
    requires Factor(s, mid + 1) == At(Eval(b), end)
    ensures Term(s, i) == ThenTermLoop(s, Eval(Bin(op, a, b)), end)
  {
    hide Factor, Term, TermLoop, Expr, ExprLoop, Number, Percents, NatDigits;
    if Eval(a).Some? {
      TermLoopUnfold(s, mid, Eval(a).value);
    }
  }

  lemma ExprOfTerm(s: string, i: nat, e: Formula, end: nat)
    requires i <= end <= |s| && Boundary(s, end, AtSum)
    requires Term(s, i) == ThenTermLoop(s, Eval(e), end)
    ensures Expr(s, i) == ThenExprLoop(s, Eval(e), end)
  {
    hide Factor, Term, TermLoop, Expr, ExprLoop, Number, Percents, NatDigits;
    ExprUnfold(s, i);
    if Eval(e).Some? {
      TermLoopAtBoundary(s, end, Eval(e).value);
    }
  }

  lemma ExprOfSum(s: string, i: nat, op: BinOp, a: Formula, b: Formula, mid: nat, end: nat)
    requires IsAdditive(op)
    requires i <= mid < end <= |s| && s[mid] == OpChar(op) && Boundary(s, end, AtSum)
    requires Expr(s, i) == ThenExprLoop(s, Eval(a), mid)
    requires Term(s, mid + 1) == ThenTermLoop(s, Eval(b), end)
    ensures Expr(s, i) == ThenExprLoop(s, Eval(Bin(op, a, b)), end)
  {
    hide Factor, Term, TermLoop, Expr, ExprLoop, Number, Percents, NatDigits;
    if Eval(a).Some? {
      ExprLoopUnfold(s, mid, Eval(a).value);
      if Eval(b).Some? {
        TermLoopAtBoundary(s, end, Eval(b).value);
      }
    }
  }

  // How a placed formula's text splits into the texts of its parts.

  lemma PlacedNeg(s: string, i: nat, a: Formula)
    requires Placed(s, i, Neg(a), AtFactor)
    ensures s[i] == '-' && Placed(s, i + 1, a, AtFactor)
    ensures |Show(Neg(a), AtFactor)| == 1 + |Show(a, AtFactor)|
  {
    hide Show, NatDigits;
    ShowUnfold(Neg(a), AtFactor);
    var t, u := Show(Neg(a), AtFactor), Show(a, AtFactor);
    assert t == "-" + u;
    SplitAt(s, i, "-", u);
    PieceAt(s, i, t, 0);
  }

  lemma PlacedPercentLit(s: string, i: nat, n: nat)
    requires Placed(s, i, Pct(Lit(n)), AtFactor)
    ensures var t := NatDigits(n);
      i + |t| + 1 <= |s| && s[i..i + |t|] == t && s[i + |t|] == '%' &&
      Boundary(s, i + |t| + 1, AtFactor)
    ensures |Show(Pct(Lit(n)), AtFactor)| == |NatDigits(n)| + 1
  {
    hide Show, NatDigits;
    ShowUnfold(Pct(Lit(n)), AtFactor);
    var t, u := Show(Pct(Lit(n)), AtFactor), NatDigits(n);
    assert t == u + "%";
    SplitAt(s, i, u, "%");
    PieceAt(s, i, t, |u|);
  }

  lemma PlacedPercentGroup(s: string, i: nat, a: Formula)
    requires !a.Lit? && Placed(s, i, Pct(a), AtFactor)
    ensures var close := i + 1 + |Show(a, AtSum)|;
      && close + 1 < |s| && s[i] == '(' && s[close] == ')' && s[close + 1] == '%'
      && Placed(s, i + 1, a, AtSum) && Boundary(s, close + 2, AtFactor)
    ensures |Show(Pct(a), AtFactor)| == |Show(a, AtSum)| + 3
  {
    hide Show, NatDigits;
    ShowUnfold(Pct(a), AtFactor);
    var t, u := Show(Pct(a), AtFactor), Show(a, AtSum);
    assert t == "(" + u + ")%";
    Wrapped(s, i, u, ")%");
  }

  lemma PlacedGroup(s: string, i: nat, e: Formula)
    requires e.Bin? && Placed(s, i, e, AtFactor)
    ensures var close := i + 1 + |Show(e, AtSum)|;
      && close < |s| && s[i] == '(' && s[close] == ')'
      && Placed(s, i + 1, e, AtSum) && Boundary(s, close + 1, AtFactor)
    ensures |Show(e, AtFactor)| == |Show(e, AtSum)| + 2
  {
    hide Show, NatDigits;
    ShowUnfold(e, AtFactor);
    ShowUnfold(e, AtSum);
    var t, u := Show(e, AtFactor), Show(e, AtSum);
    assert t == "(" + u + ")";
    Wrapped(s, i, u, ")");
  }

  lemma PlacedProduct(s: string, i: nat, e: Formula)
    requires e.Bin? && !IsAdditive(e.op) && Placed(s, i, e, AtProduct)
    ensures var mid := i + |Show(e.l, AtProduct)|;
      && mid < |s| && s[mid] == OpChar(e.op)
      && Placed(s, i, e.l, AtProduct) && Placed(s, mid + 1, e.r, AtFactor)
      && i + |Show(e, AtProduct)| == mid + 1 + |Show(e.r, AtFactor)|
  {
    hide Show, NatDigits;
    ShowUnfold(e, AtProduct);
    var t, x, y := Show(e, AtProduct), Show(e.l, AtProduct), Show(e.r, AtFactor);
    assert t == x + [OpChar(e.op)] + y;
    SplitAt(s, i, x + [OpChar(e.op)], y);
    SplitAt(s, i, x, [OpChar(e.op)]);
    PieceAt(s, i, t, |x|);
  }

  lemma PlacedSum(s: string, i: nat, e: Formula)
    requires e.Bin? && IsAdditive(e.op) && Placed(s, i, e, AtSum)
    ensures var mid := i + |Show(e.l, AtSum)|;
      && mid < |s| && s[mid] == OpChar(e.op)
      && Placed(s, i, e.l, AtSum) && Placed(s, mid + 1, e.r, AtProduct)
      && i + |Show(e, AtSum)| == mid + 1 + |Show(e.r, AtProduct)|
  {
    hide Show, NatDigits;
    ShowUnfold(e, AtSum);
    var t, x, y := Show(e, AtSum), Show(e.l, AtSum), Show(e.r, AtProduct);
    assert t == x + [OpChar(e.op)] + y;
    SplitAt(s, i, x + [OpChar(e.op)], y);
    SplitAt(s, i, x, [OpChar(e.op)]);
    PieceAt(s, i, t, |x|);
  }

  /** Outside a product, a formula prints the same as a term and as a factor. */
  lemma PlacedTermAsFactor(s: string, i: nat, e: Formula)
    requires !(e.Bin? && !IsAdditive(e.op)) && Placed(s, i, e, AtProduct)
    ensures Show(e, AtProduct) == Show(e, AtFactor) && Placed(s, i, e, AtFactor)
  {
    hide NatDigits;
  }

  /** Outside a sum, a formula prints the same as an expression and as a term. */
  lemma PlacedExprAsTerm(s: string, i: nat, e: Formula)
    requires !(e.Bin? && IsAdditive(e.op)) && Placed(s, i, e, AtSum)
    ensures Show(e, AtSum) == Show(e, AtProduct) && Placed(s, i, e, AtProduct)
  {
    hide NatDigits;
  }

  /** A placed factor parses, up to its end, to its value. */
  lemma {:induction false} FactorShows(s: string, i: nat, e: Formula)
    requires Placed(s, i, e, AtFactor)
    ensures Factor(s, i) == At(Eval(e), i + |Show(e, AtFactor)|)
    decreases e, Rank(e, AtFactor)
  {
    hide Factor, Term, TermLoop, Expr, ExprLoop, Number, Percents, NatDigits, Eval, At, ThenTermLoop, ThenExprLoop, Show;
    match e
    case Lit(n) =>
      ShowUnfold(e, AtFactor);
      FactorOfLit(s, i, n);
    case Neg(a) =>
      PlacedNeg(s, i, a);
      FactorShows(s, i + 1, a);
      FactorOfNeg(s, i, a, i + |Show(e, AtFactor)|);
    case Pct(a) =>
      if a.Lit? {
        PlacedPercentLit(s, i, a.n);
        FactorOfPercentLit(s, i, a.n);
      } else {
        PlacedPercentGroup(s, i, a);
        ExprShows(s, i + 1, a);
        FactorOfPercentGroup(s, i, a, i + 1 + |Show(a, AtSum)|);
      }
    case Bin(op, a, b) =>
      PlacedGroup(s, i, e);
      ExprShows(s, i + 1, e);
      FactorOfGroup(s, i, e, i + 1 + |Show(e, AtSum)|);
  }

  /** A placed term parses to its value and hands that value to the '*' / '/' loop. */
  lemma {:induction false} TermShows(s: string, i: nat, e: Formula)
    requires Placed(s, i, e, AtProduct)
    ensures Term(s, i) == ThenTermLoop(s, Eval(e), i + |Show(e, AtProduct)|)
    decreases e, Rank(e, AtProduct)
  {
    hide Factor, Term, TermLoop, Expr, ExprLoop, Number, Percents, NatDigits, Eval, At, ThenTermLoop, ThenExprLoop, Show;
    if e.Bin? && !IsAdditive(e.op) {
      PlacedProduct(s, i, e);
      var mid := i + |Show(e.l, AtProduct)|;
      TermShows(s, i, e.l);
      FactorShows(s, mid + 1, e.r);
      TermOfProduct(s, i, e.op, e.l, e.r, mid, i + |Show(e, AtProduct)|);
    } else {
      PlacedTermAsFactor(s, i, e);
      FactorShows(s, i, e);
      TermOfFactor(s, i, e, i + |Show(e, AtProduct)|);
    }
  }

  /** A placed expression parses to its value and hands that value to the '+' / '-' loop. */
  lemma {:induction false} ExprShows(s: string, i: nat, e: Formula)
    requires Placed(s, i, e, AtSum)
    ensures Expr(s, i) == ThenExprLoop(s, Eval(e), i + |Show(e, AtSum)|)
    decreases e, Rank(e, AtSum)
  {
    hide Factor, Term, TermLoop, Expr, ExprLoop, Number, Percents, NatDigits, Eval, At, ThenTermLoop, ThenExprLoop, Show;
    if e.Bin? && IsAdditive(e.op) {
      PlacedSum(s, i, e);
      var mid := i + |Show(e.l, AtSum)|;
      ExprShows(s, i, e.l);
      TermShows(s, mid + 1, e.r);
      ExprOfSum(s, i, e.op, e.l, e.r, mid, i + |Show(e, AtSum)|);
    } else {
      PlacedExprAsTerm(s, i, e);
      TermShows(s, i, e);
      ExprOfTerm(s, i, e, i + |Show(e, AtSum)|);
    }
  }

  /** Balanced: as many ')' as '(' and no prefix with more ')' than '('. */
  predicate Balanced(t: string) {
    Balance(t) == 0 && NoDeficit(t, 0)
  }

  lemma NoParensBalanced(t: string, depth: int)
    requires '(' !in t && ')' !in t && depth >= 0
    ensures Balance(t) == 0 && NoDeficit(t, depth)
  {
    forall k | 0 <= k <= |t|
      ensures depth + Balance(t[..k]) >= 0
    {
      assert '(' !in t[..k] && ')' !in t[..k];
    }
  }

  lemma BalancedConcat(a: string, b: string)
    requires Balanced(a) && Balanced(b)
    ensures Balanced(a + b)
  {
    NoDeficitConcat(a, b, 0);
  }

  lemma BalancedGroup(u: string)
    requires Balanced(u)
    ensures Balanced("(" + u + ")")
  {
    assert NoDeficit("(", 0) by {
      assert forall k :: 0 <= k <= 1 ==> "("[..k] == [] || "("[..k] == "(";
    }
    assert Balance("(") == 1;
    NoDeficitConcat("(", u, 0);
    assert NoDeficit(")", 1) by {
      assert forall k :: 0 <= k <= 1 ==> ")"[..k] == [] || ")"[..k] == ")";
    }
    NoDeficitConcat("(" + u, ")", 0);
  }

  lemma DigitsBalanced(t: string)
    requires AllDigits(t)
    ensures Balanced(t)
  {
    assert '(' !in t && ')' !in t by {
      forall k | 0 <= k < |t| ensures t[k] != '(' && t[k] != ')' {
        assert IsDigit(t[k]);
      }
    }
    NoParensBalanced(t, 0);
  }

  /** Every printed formula has balanced parentheses. */
  lemma {:induction false} ShowBalanced(e: Formula, level: Level)
    ensures Balanced(Show(e, level))
  {
    hide Show, NatDigits, Balance, NoDeficit;
    ShowUnfold(e, level);
    match e
    case Lit(n) =>
      DigitsBalanced(NatDigits(n));
    case Neg(a) =>
      ShowBalanced(a, AtFactor);
      NoParensBalanced("-", 0);
      BalancedConcat("-", Show(a, AtFactor));
    case Pct(a) =>
      NoParensBalanced("%", 0);
      if a.Lit? {
        DigitsBalanced(NatDigits(a.n));
        BalancedConcat(NatDigits(a.n), "%");
      } else {
        var u := Show(a, AtSum);
        ShowBalanced(a, AtSum);
        BalancedGroup(u);
        BalancedConcat("(" + u + ")", "%");
        assert "(" + u + ")%" == "(" + u + ")" + "%";
      }
    case Bin(op, a, b) =>
      var la := if IsAdditive(op) then AtSum else AtProduct;
      var lb := if IsAdditive(op) then AtProduct else AtFactor;
      var core := Show(a, la) + [OpChar(op)] + Show(b, lb);
      assert Show(e, level) == core || Show(e, level) == "(" + core + ")";
      ShowBalanced(a, la);
      ShowBalanced(b, lb);
      NoParensBalanced([OpChar(op)], 0);
      BalancedConcat(Show(a, la), [OpChar(op)]);
      BalancedConcat(Show(a, la) + [OpChar(op)], Show(b, lb));
      BalancedGroup(core);
  }

  /**
   * The evaluator gives every printed formula the value of the formula,
   * and rejects it exactly when the formula divides by zero.
   */
  lemma ShowEvaluates(e: Formula)
    ensures Evaluate(Show(e, AtSum)) == Eval(e)
  {
    hide Expr, ExprLoop, Term, TermLoop, Factor, Number, Percents, NatDigits, Eval, Show, Balance, NoDeficit;
    var t := Show(e, AtSum);
    ShowBalanced(e, AtSum);
    assert Closed(t) == t;
    assert t[0..|t|] == t;
    ExprShows(t, 0, e);
    if Eval(e).Some? {
      ExprLoopAtClose(t, |t|, Eval(e).value);
    }
  }

  /** '*' binds tighter than '+'. */
  lemma ProductBeforeSum()
    ensures Evaluate("2+3*4") == Some(14.0)
  {
    hide Evaluate, Closed, Expr, ExprLoop, Term, TermLoop, Factor, Number, Percents, NoDeficit, Balance;
    var e := Bin(Add, Lit(2), Bin(Mul, Lit(3), Lit(4)));
    assert Show(e, AtSum) == "2+3*4";
    assert Eval(e) == Some(14.0);
    ShowEvaluates(e);
    assert Evaluate("2+3*4") == Some(14.0);
  }

  /** Parentheses override precedence. */
  lemma ParenthesesFirst()
    ensures Evaluate("(2+3)*4") == Some(20.0)
  {
    hide Evaluate, Closed, Expr, ExprLoop, Term, TermLoop, Factor, Number, Percents, NoDeficit, Balance;
    var e := Bin(Mul, Bin(Add, Lit(2), Lit(3)), Lit(4));
    assert Show(e, AtSum) == "(2+3)*4";
    assert Eval(e) == Some(20.0);
    ShowEvaluates(e);
    assert Evaluate("(2+3)*4") == Some(20.0);
  }

  /** A parenthesised sum as the right operand of '*'. */
  lemma GroupLast()
    ensures Evaluate("2*(3+4)") == Some(14.0)
  {
    hide Evaluate, Closed, Expr, ExprLoop, Term, TermLoop, Factor, Number, Percents, NoDeficit, Balance;
    var e := Bin(Mul, Lit(2), Bin(Add, Lit(3), Lit(4)));
    assert Show(e, AtSum) == "2*(3+4)";
    assert Eval(e) == Some(14.0);
    ShowEvaluates(e);
    assert Evaluate("2*(3+4)") == Some(14.0);
  }

  /** '-' groups to the left. */
  lemma SubtractionFromLeft()
    ensures Evaluate("10-4-3") == Some(3.0)
  {
    hide Evaluate, Closed, Expr, ExprLoop, Term, TermLoop, Factor, Number, Percents, NoDeficit, Balance;
    var e := Bin(Sub, Bin(Sub, Lit(10), Lit(4)), Lit(3));
    assert Show(e, AtSum) == "10-4-3";
    assert Eval(e) == Some(3.0);
    ShowEvaluates(e);
    assert Evaluate("10-4-3") == Some(3.0);
  }

  /** '/' groups to the left. */
  lemma DivisionFromLeft()
    ensures Evaluate("8/4/2") == Some(1.0)
  {
    hide Evaluate, Closed, Expr, ExprLoop, Term, TermLoop, Factor, Number, Percents, NoDeficit, Balance;
    var e := Bin(Div, Bin(Div, Lit(8), Lit(4)), Lit(2));
    assert Show(e, AtSum) == "8/4/2";
    assert Eval(e) == Some(1.0);
    ShowEvaluates(e);
    assert Evaluate("8/4/2") == Some(1.0);
  }

  /** Dividing by zero is an error. */
  lemma DivisionByZero()
    ensures Evaluate("5/0") == None
  {
    hide Evaluate, Closed, Expr, ExprLoop, Term, TermLoop, Factor, Number, Percents, NoDeficit, Balance;
    var e := Bin(Div, Lit(5), Lit(0));
    assert Show(e, AtSum) == "5/0";
    assert Eval(e) == None;
    ShowEvaluates(e);
    assert Evaluate("5/0") == None;
  }

  /** A unary minus applies to the factor after it. */
  lemma UnaryMinus()
    ensures Evaluate("-5+3") == Some(-2.0)
  {
    hide Evaluate, Closed, Expr, ExprLoop, Term, TermLoop, Factor, Number, Percents, NoDeficit, Balance;
    var e := Bin(Add, Neg(Lit(5)), Lit(3));
    assert Show(e, AtSum) == "-5+3";
    assert Eval(e) == Some(-2.0);
    ShowEvaluates(e);
    assert Evaluate("-5+3") == Some(-2.0);
  }

  /** A postfix '%' divides the factor before it by 100. */
  lemma PercentOfFactor()
    ensures Evaluate("200*10%") == Some(20.0)
  {
    hide Evaluate, Closed, Expr, ExprLoop, Term, TermLoop, Factor, Number, Percents, NoDeficit, Balance;
    var e := Bin(Mul, Lit(200), Pct(Lit(10)));
    assert Show(e, AtSum) == "200*10%";
    assert Eval(e) == Some(20.0);
    ShowEvaluates(e);
    assert Evaluate("200*10%") == Some(20.0);
  }
}
