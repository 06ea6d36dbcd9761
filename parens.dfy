/**
 * Parenthesis bookkeeping shared by the evaluator (normalizeParens in
 * cocalc/app/src/main/cpp/native-lib.cpp) and the keypad's paren key
 * (appendParenSmart in MainActivity.kt).
 */
module Parens {

  /** Number of '(' in `s` minus number of ')'. */
  function Balance(s: string): int {
    multiset(s)['('] as int - multiset(s)[')'] as int
  }

  /**
   * Starting `depth` levels deep, no prefix of `s` closes more parentheses
   * than are open: with `depth == 0`, no prefix has more ')' than '('.
   */
  predicate NoDeficit(s: string, depth: int) {
    forall k :: 0 <= k <= |s| ==> depth + Balance(s[..k]) >= 0
  }

  /** `n` closing parentheses. */
  function Closers(n: nat): (t: string)
    ensures |t| == n
    ensures forall k :: 0 <= k < n ==> t[k] == ')'
  {
    if n == 0 then [] else Closers(n - 1) + [')']
  }

  lemma NoDeficitWhole(s: string, depth: int)
    requires NoDeficit(s, depth)
    ensures depth + Balance(s) >= 0
  {
    assert s[..|s|] == s;
  }

  /** One more character moves the balance by at most one. */
  lemma BalanceSnoc(s: string, c: char)
    ensures Balance(s + [c]) == Balance(s) + (if c == '(' then 1 else if c == ')' then -1 else 0)
  {
    assert multiset(s + [c]) == multiset(s) + multiset{c};
  }

  lemma {:induction false} ClosersBalance(n: nat)
    ensures Balance(Closers(n)) == -(n as int)
    ensures NoDeficit(Closers(n), n)
  {
    if n > 0 {
      ClosersBalance(n - 1);
      var t := Closers(n);
      BalanceSnoc(Closers(n - 1), ')');
      hide Balance;
      forall k | 0 <= k <= n
        ensures n + Balance(t[..k]) >= 0
      {
        if k < n {
          assert t[..k] == Closers(n - 1)[..k];
        } else {
          assert t[..k] == t;
        }
      }
    }
  }

  /** A prefix that never runs short, followed by one that never runs short from where the first ends. */
  lemma NoDeficitConcat(a: string, b: string, depth: int)
    requires NoDeficit(a, depth)
    requires NoDeficit(b, depth + Balance(a))
    ensures NoDeficit(a + b, depth)
    ensures Balance(a + b) == Balance(a) + Balance(b)
  {
    var ab := a + b;
    forall k | 0 <= k <= |ab|
      ensures depth + Balance(ab[..k]) >= 0
    {
      if k <= |a| {
        assert ab[..k] == a[..k];
      } else {
        assert ab[..k] == a + b[..k - |a|];
        assert depth + Balance(a) + Balance(b[..k - |a|]) >= 0;
      }
    }
  }

  lemma NoDeficitSnoc(a: string, c: char)
    requires NoDeficit(a, 0)
    requires Balance(a + [c]) >= 0
    ensures NoDeficit(a + [c], 0)
  {
    forall k | 0 <= k <= |a| + 1
      ensures Balance((a + [c])[..k]) >= 0
    {
      if k <= |a| {
        assert (a + [c])[..k] == a[..k];
      } else {
        assert (a + [c])[..k] == a + [c];
      }
    }
  }

  /**
   * normalizeParens: fails, leaving `s` as it is, as soon as a prefix has
   * more ')' than '('; otherwise appends one ')' per parenthesis left open.
   * The in-place `push_back` is modelled by returning the new string `t`.
   */
  method NormalizeParens(s: string) returns (ok: bool, t: string)
    ensures ok <==> NoDeficit(s, 0)
    ensures !ok ==> t == s
    ensures ok ==> Balance(s) >= 0 && t == s + Closers(Balance(s))
  {
    var balance := 0;
    for k := 0 to |s|
      invariant balance == Balance(s[..k])
      invariant NoDeficit(s[..k], 0)
    {
      assert s[..k + 1] == s[..k] + [s[k]];
      if s[k] == '(' {
        balance := balance + 1;
      } else if s[k] == ')' {
        balance := balance - 1;
        if balance < 0 {
          assert Balance(s[..k + 1]) < 0;
          return false, s;
        }
      }
      NoDeficitSnoc(s[..k], s[k]);
      assert s[..k] + [s[k]] == s[..k + 1];
    }
    assert s[..|s|] == s;
    t := s;
    while balance > 0
      invariant 0 <= balance <= Balance(s)
      invariant t == s + Closers(Balance(s) - balance)
    {
      t := t + [')'];
      balance := balance - 1;
    }
    ok := true;
  }

  /** What normalizeParens produces is balanced and never runs short. */
  lemma NormalizedBalanced(s: string)
    requires NoDeficit(s, 0)
    ensures Balance(s) >= 0
    ensures Balance(s + Closers(Balance(s))) == 0
    ensures NoDeficit(s + Closers(Balance(s)), 0)
  {
    NoDeficitWhole(s, 0);
    ClosersBalance(Balance(s));
    NoDeficitConcat(s, Closers(Balance(s)), 0);
  }
}
