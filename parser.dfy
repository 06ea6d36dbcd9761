/**
 * The recursive-descent evaluator of cocalc/app/src/main/cpp/native-lib.cpp.
 * It evaluates while it parses, moving an index `i` forward through the
 * string:
 *
 *   expr   := term (('+' | '-') term)*
 *   term   := factor (('*' | '/') factor)*
 *   factor := ('+' | '-') factor | number | '(' expr ')'   each followed by '%'*
 *
 * The functions below (Skip, DigitsEnd, Number, Percents, Factor, Term,
 * TermLoop, Expr, ExprLoop) say what each parse step yields from a
 * position: None for failure, or the value and the position after it. The
 * methods (SkipSpaces, ParseNumber, ParseFactor, ParseTerm, ParseExpr) are
 * the source's loops and are proved to compute exactly those functions.
 */
module Parser {
  import opened Wrappers
  import opened Numerals

  /** What a successful parse step yields: its value and where it stopped. */
  datatype Parsed = Parsed(value: real, next: nat)

  /** 100^m, the divisor applied by m postfix '%'. */
  function Pow100(m: nat): (p: real)
    ensures p >= 1.0
  {
    if m == 0 then 1.0 else 100.0 * Pow100(m - 1)
  }

  /** Where skipSpaces leaves the index: at the end or at a non-space. */
  function Skip(s: string, i: nat): (j: nat)
    requires i <= |s|
    ensures i <= j <= |s|
    ensures j == |s| || !IsSpace(s[j])
    decreases |s| - i
  {
    if i < |s| && IsSpace(s[i]) then Skip(s, i + 1) else i
  }

  /** skipSpaces passes over spaces only. */
  lemma {:induction false} SkipOverSpaces(s: string, i: nat)
    requires i <= |s|
    ensures forall k :: i <= k < Skip(s, i) ==> IsSpace(s[k])
    decreases |s| - i
  {
    if i < |s| && IsSpace(s[i]) {
      SkipOverSpaces(s, i + 1);
    }
  }

  /** End of the run of digits that starts at `i`. */
  function DigitsEnd(s: string, i: nat): (j: nat)
    requires i <= |s|
    ensures i <= j <= |s|
    ensures j == |s| || !IsDigit(s[j])
    decreases |s| - i
  {
    if i < |s| && IsDigit(s[i]) then DigitsEnd(s, i + 1) else i
  }

  lemma {:induction false} DigitsEndOverDigits(s: string, i: nat)
    requires i <= |s|
    ensures forall k :: i <= k < DigitsEnd(s, i) ==> IsDigit(s[k])
    decreases |s| - i
  {
    if i < |s| && IsDigit(s[i]) {
      DigitsEndOverDigits(s, i + 1);
    }
  }

  /** A run of digits from `i` that ends at `e` is where DigitsEnd stops. */
  lemma {:induction false} DigitsEndAt(s: string, i: nat, e: nat)
    requires i <= e <= |s|
    requires forall k :: i <= k < e ==> IsDigit(s[k])
    requires e == |s| || !IsDigit(s[e])
    ensures DigitsEnd(s, i) == e
    decreases e - i
  {
    if i < e {
      DigitsEndAt(s, i + 1, e);
    }
  }

  lemma NumeralSlice(s: string, k: nat, a: nat, b: nat)
    requires k <= a <= b <= |s|
    requires b == a || (s[a] == '.' && a < b)
    requires forall m :: k <= m < a ==> IsDigit(s[m])
    requires forall m :: a < m < b ==> IsDigit(s[m])
    requires a > k || b > a + 1
    ensures IsNumeral(s[k..b])
    ensures DotIndex(s[k..b]) == a - k
  {
    var t := s[k..b];
    assert forall m :: 0 <= m < a - k ==> t[m] == s[k + m];
    DotIndexAt(t, a - k);
    if a < b {
      assert t[a - k + 1..] == s[a + 1..b];
    }
  }

  /** Whether parseNumber sees a digit in the run it scans from `k`. */
  predicate HasDigit(s: string, k: nat, a: nat, b: nat) {
    a > k || b > a + 1
  }

  /** The end of the '.' and fraction part that follows the digits ending at `a`. */
  function FractionEnd(s: string, a: nat): (b: nat)
    requires a <= |s|
    ensures a <= b <= |s|
  {
    if a < |s| && s[a] == '.' then DigitsEnd(s, a + 1) else a
  }

  /**
   * parseNumber: after spaces, digits, then optionally '.' and digits; it
   * fails when it saw no digit. The value is std::stod of the text scanned.
   */
  function Number(s: string, i: nat): (r: Option<Parsed>)
    requires i <= |s|
    ensures r.Some? ==> Skip(s, i) < r.value.next <= |s|
  {
    var k := Skip(s, i);
    if k >= |s| then None
    else
      var a := DigitsEnd(s, k);
      var b := FractionEnd(s, a);
      if !HasDigit(s, k, a, b) then None
      else Some(Parsed(NumeralValue(s[k..b]), b))
  }

  lemma NumberUnfold(s: string, i: nat)
    requires i <= |s|
    ensures var k := Skip(s, i);
      Number(s, i) ==
        if k >= |s| then None
        else
          var a := DigitsEnd(s, k);
          var b := FractionEnd(s, a);
          if !HasDigit(s, k, a, b) then None else Some(Parsed(NumeralValue(s[k..b]), b))
  {
  }

  /**
   * parseNumber succeeds exactly when, after spaces, a digit or a '.'
   * followed by a digit comes next; so a lone '.' is rejected.
   */
  lemma NumberAccepts(s: string, i: nat)
    requires i <= |s|
    ensures var k := Skip(s, i);
      Number(s, i).Some? <==>
      k < |s| && (IsDigit(s[k]) || (s[k] == '.' && k + 1 < |s| && IsDigit(s[k + 1])))
  {
    var k := Skip(s, i);
    if k < |s| {
      var a := DigitsEnd(s, k);
      if a == k && a < |s| && s[a] == '.' && a + 1 < |s| && IsDigit(s[a + 1]) {
        assert DigitsEnd(s, a + 1) > a + 1;
      }
    }
  }

  /**
   * What a successful parseNumber consumed: a numeral (digits with at most
   * one '.', at least one digit) worth the value returned, not followed by
   * a digit; if a '.' follows, the numeral already has one, so a second '.'
   * is never consumed.
   */
  lemma NumberShape(s: string, i: nat)
    requires i <= |s| && Number(s, i).Some?
    ensures var k, p := Skip(s, i), Number(s, i).value;
      && IsNumeral(s[k..p.next])
      && p.value == NumeralValue(s[k..p.next])
      && (p.next == |s| || !IsDigit(s[p.next]))
      && (p.next < |s| && s[p.next] == '.' ==> DotIndex(s[k..p.next]) < p.next - k)
  {
    var k := Skip(s, i);
    var a := DigitsEnd(s, k);
    var b := FractionEnd(s, a);
    DigitsEndOverDigits(s, k);
    if b > a { DigitsEndOverDigits(s, a + 1); }
    NumeralSlice(s, k, a, b);
  }

  /** Number of '%' in `t`. */
  function PercentCount(t: string): nat {
    multiset(t)['%']
  }

  lemma PercentCountStep(s: string, i: nat, k: nat, n: nat)
    requires i <= k < n <= |s| && s[k] == '%'
    requires forall m :: i <= m < k ==> IsSpace(s[m])
    ensures PercentCount(s[i..n]) == 1 + PercentCount(s[k + 1..n])
  {
    assert s[i..n] == s[i..k] + [s[k]] + s[k + 1..n];
    assert '%' !in s[i..k];
  }

  lemma PercentCountSpaces(s: string, i: nat, k: nat)
    requires i <= k <= |s|
    requires forall m :: i <= m < k ==> IsSpace(s[m])
    ensures PercentCount(s[i..k]) == 0
  {
    assert '%' !in s[i..k];
  }

  lemma HundredthStep(v: real, m: nat)
    ensures (v / 100.0) / Pow100(m) == v / Pow100(m + 1)
  {
    var p := Pow100(m);
    assert Pow100(m + 1) == 100.0 * p;
    calc {
      (v / 100.0) / p;
      v / (100.0 * p);
    }
  }

  /**
   * The postfix loop of parseFactor: while, after spaces, a '%' comes
   * next, consume it and divide the value by 100.
   */
  function Percents(s: string, i: nat, v: real): (r: Parsed)
    requires i <= |s|
    ensures i <= r.next <= |s|
    ensures r.next == |s| || (s[r.next] != '%' && !IsSpace(s[r.next]))
    decreases |s| - i
  {
    var k := Skip(s, i);
    if k < |s| && s[k] == '%' then Percents(s, k + 1, v / 100.0) else Parsed(v, k)
  }

  /** One round of the '%' loop. */
  lemma PercentsUnfold(s: string, i: nat, v: real)
    requires i <= |s|
    ensures var k := Skip(s, i);
      Percents(s, i, v) == if k < |s| && s[k] == '%' then Percents(s, k + 1, v / 100.0) else Parsed(v, k)
  {
  }

  /**
   * The '%' loop consumes only '%' and spaces, and divides the value by 100
   * once for every '%' it consumed.
   */
  lemma {:induction false} PercentsDivide(s: string, i: nat, v: real)
    requires i <= |s|
    ensures var r := Percents(s, i, v);
      && (forall k :: i <= k < r.next ==> s[k] == '%' || IsSpace(s[k]))
      && r.value == v / Pow100(PercentCount(s[i..r.next]))
    decreases |s| - i
  {
    hide Percents;
    PercentsUnfold(s, i, v);
    var k := Skip(s, i);
    SkipOverSpaces(s, i);
    if k < |s| && s[k] == '%' {
      var r := Percents(s, k + 1, v / 100.0);
      PercentsDivide(s, k + 1, v / 100.0);
      PercentCountStep(s, i, k, r.next);
      HundredthStep(v, PercentCount(s[k + 1..r.next]));
    } else {
      PercentCountSpaces(s, i, k);
    }
  }

  /**
   * parseFactor: a unary '+' or '-' applied to a factor, a parenthesised
   * expression, or a number; then the postfix '%' loop. A successful factor
   * never stops before a space or a '%'.
   */
  function Factor(s: string, i: nat): (r: Option<Parsed>)
    requires i <= |s|
    ensures r.Some? ==> i < r.value.next <= |s|
    ensures r.Some? ==> r.value.next == |s| || (s[r.value.next] != '%' && !IsSpace(s[r.value.next]))
    decreases |s| - i, 1
  {
    var k := Skip(s, i);
    if k >= |s| then None
    else if s[k] == '+' || s[k] == '-' then
      match Factor(s, k + 1)
      case None => None
      case Some(p) => Some(Percents(s, p.next, if s[k] == '-' then -p.value else p.value))
    else if s[k] == '(' then
      match Expr(s, k + 1)
      case None => None
      case Some(p) =>
        var m := Skip(s, p.next);
        if m >= |s| || s[m] != ')' then None
        else Some(Percents(s, m + 1, p.value))
    else
      match Number(s, k)
      case None => None
      case Some(p) => Some(Percents(s, p.next, p.value))
  }

  /**
   * `left * right`, the product parseTerm folds in; naming it keeps the
   * solver from treating every product of two variables as nonlinear
   * arithmetic.
   */
  function Product(left: real, right: real): real {
    left * right
  }

  /** Position `j` holds no space and no '*' or '/': where the term loop stops. */
  predicate StopsAfterTerm(s: string, j: nat) {
    j == |s| || (j < |s| && !IsSpace(s[j]) && s[j] != '*' && s[j] != '/')
  }

  /** Position `j` holds no space and no '+' or '-': where the expression loop stops. */
  predicate StopsAfterExpr(s: string, j: nat) {
    j == |s| || (j < |s| && !IsSpace(s[j]) && s[j] != '+' && s[j] != '-')
  }

  /**
   * The loop of parseTerm from index `i` with the value `left` so far: each
   * '*' or '/' and the factor after it fold into `left`; a division by zero
   * fails. It stops, after spaces, at any other character.
   */
  function TermLoop(s: string, i: nat, left: real): (r: Option<Parsed>)
    requires i <= |s|
    ensures r.Some? ==> i <= r.value.next <= |s|
    ensures r.Some? ==> StopsAfterTerm(s, r.value.next)
    decreases |s| - i, 0
  {
    var k := Skip(s, i);
    if k >= |s| || (s[k] != '*' && s[k] != '/') then Some(Parsed(left, k))
    else
      match Factor(s, k + 1)
      case None => None
      case Some(p) =>
        if s[k] == '*' then TermLoop(s, p.next, Product(left, p.value))
        else if p.value == 0.0 then None
        else TermLoop(s, p.next, left / p.value)
  }

  /** parseTerm: a factor, then the '*' / '/' loop. */
  function Term(s: string, i: nat): (r: Option<Parsed>)
    requires i <= |s|
    ensures r.Some? ==> i < r.value.next <= |s|
    ensures r.Some? ==> StopsAfterTerm(s, r.value.next)
    decreases |s| - i, 2
  {
    match Factor(s, i)
    case None => None
    case Some(p) => TermLoop(s, p.next, p.value)
  }

  /**
   * The loop of parseExpr from index `i` with the value `left` so far: each
   * '+' or '-' and the term after it fold into `left`.
   */
  function ExprLoop(s: string, i: nat, left: real): (r: Option<Parsed>)
    requires i <= |s|
    ensures r.Some? ==> i <= r.value.next <= |s|
    ensures r.Some? ==> StopsAfterExpr(s, r.value.next)
    decreases |s| - i, 0
  {
    var k := Skip(s, i);
    if k >= |s| || (s[k] != '+' && s[k] != '-') then Some(Parsed(left, k))
    else
      match Term(s, k + 1)
      case None => None
      case Some(p) =>
        if s[k] == '+' then ExprLoop(s, p.next, left + p.value)
        else ExprLoop(s, p.next, left - p.value)
  }

  /** parseExpr: a term, then the '+' / '-' loop. */
  function Expr(s: string, i: nat): (r: Option<Parsed>)
    requires i <= |s|
    ensures r.Some? ==> i < r.value.next <= |s|
    ensures r.Some? ==> StopsAfterExpr(s, r.value.next)
    decreases |s| - i, 3
  {
    match Term(s, i)
    case None => None
    case Some(p) => ExprLoop(s, p.next, p.value)
  }

  /** skipSpaces: advances `i` past spaces. */
  method SkipSpaces(s: string, i: nat) returns (j: nat)
    requires i <= |s|
    ensures j == Skip(s, i)
  {
    j := i;
    while j < |s| && IsSpace(s[j])
      invariant i <= j <= |s|
      invariant Skip(s, j) == Skip(s, i)
    {
      j := j + 1;
    }
  }

  /**
   * parseNumber. The index moves forward even when it fails; `v` is only
   * meaningful on success. std::stod on the scanned text is NumeralValue.
   */
  method ParseNumber(s: string, i: nat) returns (ok: bool, j: nat, v: real)
    requires i <= |s|
    ensures i <= j <= |s|
    ensures ok == Number(s, i).Some?
    ensures ok ==> Number(s, i).value == Parsed(v, j)
  {
    hide Number, NumeralValue;
    NumberUnfold(s, i);
    v := 0.0;
    j := SkipSpaces(s, i);
    if j >= |s| {
      return false, j, v;
    }
    var start := j;
    var hasDigit := false;
    while j < |s| && IsDigit(s[j])
      invariant start <= j <= |s|
      invariant DigitsEnd(s, j) == DigitsEnd(s, start)
      invariant hasDigit == (j > start)
    {
      j := j + 1;
      hasDigit := true;
    }
    ghost var a := j;
    assert a == DigitsEnd(s, start);
    if j < |s| && s[j] == '.' {
      j := j + 1;
      while j < |s| && IsDigit(s[j])
        invariant a + 1 <= j <= |s|
        invariant DigitsEnd(s, j) == DigitsEnd(s, a + 1)
        invariant hasDigit == (a > start || j > a + 1)
      {
        j := j + 1;
        hasDigit := true;
      }
      assert j == DigitsEnd(s, a + 1);
    }
    if !hasDigit {
      return false, j, v;
    }
    v := NumeralValue(s[start..j]);
    ok := true;
  }

  /*
   * The methods below keep the bodies of the grammar functions hidden and
   * open them one step at a time through PercentsUnfold and the following
   * lemmas, each of which states one function's defining equation.
   */

  lemma FactorUnfold(s: string, i: nat)
    requires i <= |s|
    ensures var k := Skip(s, i);
      Factor(s, i) ==
        if k >= |s| then None
        else if s[k] == '+' || s[k] == '-' then
          match Factor(s, k + 1)
          case None => None
          case Some(p) => Some(Percents(s, p.next, if s[k] == '-' then -p.value else p.value))
        else if s[k] == '(' then
          match Expr(s, k + 1)
          case None => None
          case Some(p) =>
            var m := Skip(s, p.next);
            if m >= |s| || s[m] != ')' then None else Some(Percents(s, m + 1, p.value))
        else
          match Number(s, k)
          case None => None
          case Some(p) => Some(Percents(s, p.next, p.value))
  {
  }

  lemma TermUnfold(s: string, i: nat)
    requires i <= |s|
    ensures Term(s, i) ==
      match Factor(s, i)
      case None => None
      case Some(p) => TermLoop(s, p.next, p.value)
  {
  }

  lemma TermLoopUnfold(s: string, i: nat, left: real)
    requires i <= |s|
    ensures var k := Skip(s, i);
      TermLoop(s, i, left) ==
        if k >= |s| || (s[k] != '*' && s[k] != '/') then Some(Parsed(left, k))
        else
          match Factor(s, k + 1)
          case None => None
          case Some(p) =>
            if s[k] == '*' then TermLoop(s, p.next, Product(left, p.value))
            else if p.value == 0.0 then None
            else TermLoop(s, p.next, left / p.value)
  {
  }

  lemma ExprUnfold(s: string, i: nat)
    requires i <= |s|
    ensures Expr(s, i) ==
      match Term(s, i)
      case None => None
      case Some(p) => ExprLoop(s, p.next, p.value)
  {
  }

  lemma ExprLoopUnfold(s: string, i: nat, left: real)
    requires i <= |s|
    ensures var k := Skip(s, i);
      ExprLoop(s, i, left) ==
        if k >= |s| || (s[k] != '+' && s[k] != '-') then Some(Parsed(left, k))
        else
          match Term(s, k + 1)
          case None => None
          case Some(p) =>
            if s[k] == '+' then ExprLoop(s, p.next, left + p.value)
            else ExprLoop(s, p.next, left - p.value)
  {
  }

  /** parseFactor, with its postfix '%' loop. */
  method ParseFactor(s: string, i: nat) returns (ok: bool, j: nat, v: real)
    requires i <= |s|
    ensures i <= j <= |s|
    ensures ok == Factor(s, i).Some?
    ensures ok ==> Factor(s, i).value == Parsed(v, j)
    decreases |s| - i, 1
  {
    hide *;
    FactorUnfold(s, i);
    v := 0.0;
    j := SkipSpaces(s, i);
    if j >= |s| {
      return false, j, v;
    }
    if s[j] == '+' || s[j] == '-' {
      var sign := s[j];
      j := j + 1;
      var val;
      ok, j, val := ParseFactor(s, j);
      if !ok {
        return;
      }
      v := if sign == '-' then -val else val;
    } else if s[j] == '(' {
      j := j + 1;
      var val;
      ok, j, val := ParseExpr(s, j);
      if !ok {
        return;
      }
      j := SkipSpaces(s, j);
      if j >= |s| || s[j] != ')' {
        return false, j, v;
      }
      j := j + 1;
      v := val;
    } else {
      ok, j, v := ParseNumber(s, j);
      if !ok {
        return;
      }
    }
    ghost var goal := Percents(s, j, v);
    while true
      invariant i < j <= |s|
      invariant Percents(s, j, v) == goal
      decreases |s| - j
    {
      ghost var from := j;
      PercentsUnfold(s, from, v);
      j := SkipSpaces(s, j);
      if j < |s| && s[j] == '%' {
        j := j + 1;
        v := v / 100.0;
        continue;
      }
      break;
    }
    ok := true;
  }

  /** parseTerm: folds factors joined by '*' and '/' from the left. */
  method ParseTerm(s: string, i: nat) returns (ok: bool, j: nat, v: real)
    requires i <= |s|
    ensures i <= j <= |s|
    ensures ok == Term(s, i).Some?
    ensures ok ==> Term(s, i).value == Parsed(v, j)
    decreases |s| - i, 2
  {
    hide Factor, Term, TermLoop, Expr, ExprLoop, Number, Percents;
    TermUnfold(s, i);
    var left;
    ok, j, left := ParseFactor(s, i);
    if !ok {
      return false, j, 0.0;
    }
    while true
      invariant i < j <= |s|
      invariant TermLoop(s, j, left) == Term(s, i)
      decreases |s| - j
    {
      TermLoopUnfold(s, j, left);
      j := SkipSpaces(s, j);
      if j >= |s| {
        break;
      }
      var op := s[j];
      if op != '*' && op != '/' {
        break;
      }
      j := j + 1;
      var right;
      ok, j, right := ParseFactor(s, j);
      if !ok {
        return false, j, 0.0;
      }
      if op == '*' {
        assert Product(left, right) == left * right;
        left := left * right;
      } else {
        if right == 0.0 {
          return false, j, 0.0;
        }
        left := left / right;
      }
    }
    return true, j, left;
  }

  /** parseExpr: folds terms joined by '+' and '-' from the left. */
  method ParseExpr(s: string, i: nat) returns (ok: bool, j: nat, v: real)
    requires i <= |s|
    ensures i <= j <= |s|
    ensures ok == Expr(s, i).Some?
    ensures ok ==> Expr(s, i).value == Parsed(v, j)
    decreases |s| - i, 3
  {
    hide *;
    ExprUnfold(s, i);
    var left;
    ok, j, left := ParseTerm(s, i);
    if !ok {
      return false, j, 0.0;
    }
    while true
      invariant i < j <= |s|
      invariant ExprLoop(s, j, left) == Expr(s, i)
      decreases |s| - j
    {
      ExprLoopUnfold(s, j, left);
      j := SkipSpaces(s, j);
      if j >= |s| {
        break;
      }
      var op := s[j];
      if op != '+' && op != '-' {
        break;
      }
      j := j + 1;
      var right;
      ok, j, right := ParseTerm(s, j);
      if !ok {
        return false, j, 0.0;
      }
      if op == '+' {
        left := left + right;
      } else {
        left := left - right;
      }
    }
    return true, j, left;
  }
}
