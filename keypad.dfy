/**
 * The keypad of cocalc/app/src/main/java/com/example/cocalc/MainActivity.kt:
 * the text `expr` being typed, the cursor of the text field, and the flag
 * `justEvaluated` that is set while `expr` shows a result. Every key edits
 * `expr` at the cursor.
 *
 * `Screen` is one state of the activity, and the functions `Inserted`,
 * `Deleted` and `After*` say what each edit and each key makes of it. The
 * class `MainActivity` holds the same state in fields and its methods are
 * the source's handlers, each proved to produce the state its function
 * describes. The lemmas state what the keys promise about the text.
 *
 * The text field itself is reduced to its selection: `render(c)` only
 * clamps the cursor, and the selection is whatever the user last tapped,
 * any integer (the field may report -1).
 */
module Keypad {
  import opened Wrappers
  import opened Numerals
  import opened Parens
  import opened Evaluator

  /** isOperator: the four binary operator keys. */
  predicate IsOperator(c: char) {
    c == '+' || c == '-' || c == '*' || c == '/'
  }

  /**
   * Kotlin's Char.isWhitespace: the ASCII controls '\t' to '\r' and
   * U+001C to U+001F, and the Unicode space, line and paragraph separators.
   */
  predicate IsWhitespace(c: char) {
    ('\t' <= c <= '\r') || ('\U{001C}' <= c <= '\U{001F}') || c == ' ' ||
    c == '\U{00A0}' || c == '\U{1680}' || ('\U{2000}' <= c <= '\U{200A}') ||
    c == '\U{2028}' || c == '\U{2029}' || c == '\U{202F}' || c == '\U{205F}' ||
    c == '\U{3000}'
  }

  /** Kotlin's String.isBlank: empty or whitespace only. */
  predicate IsBlank(s: string) {
    forall k :: 0 <= k < |s| ==> IsWhitespace(s[k])
  }

  /** A character an operand can end with: a digit or ')'. */
  predicate EndsOperand(c: char) {
    IsDigit(c) || c == ')'
  }

  /** A character of a number literal: a digit or '.'. */
  predicate InNumber(c: char) {
    IsDigit(c) || c == '.'
  }

  /** One state of the activity. */
  datatype Screen = Screen(expr: string, selection: int, justEvaluated: bool)

  /** The state after the Clear key, and when the activity starts. */
  const Cleared := Screen("", 0, false)

  /** Kotlin's coerceIn(0, n). */
  function Clamp(c: int, n: nat): (r: nat)
    ensures r <= n
    ensures 0 <= c <= n ==> r == c
    ensures c < 0 ==> r == 0
    ensures c > n ==> r == n
  {
    if c < 0 then 0 else if c > n then n else c
  }

  /** safeCursor: the selection clamped to the text. */
  function Cursor(st: Screen): (c: nat)
    ensures c <= |st.expr|
  {
    Clamp(st.selection, |st.expr|)
  }

  /** The text before the cursor. */
  function Left(st: Screen): string {
    st.expr[..Cursor(st)]
  }

  /** The text after the cursor. */
  function Right(st: Screen): string {
    st.expr[Cursor(st)..]
  }

  /** The character before the cursor, if any (`left.lastOrNull()`). */
  function Prev(st: Screen): Option<char> {
    if Cursor(st) == 0 then None else Some(st.expr[Cursor(st) - 1])
  }

  /** The character before the cursor is the last one of the text before it. */
  lemma PrevIsLast(st: Screen)
    ensures Prev(st).Some? <==> |Left(st)| > 0
    ensures Prev(st).Some? ==> Prev(st).value == Left(st)[|Left(st)| - 1]
  {
  }

  /** The selection lies within the text. */
  predicate Settled(st: Screen) {
    0 <= st.selection <= |st.expr|
  }

  /** render(c): the text stays, the cursor moves to `c`, clamped. */
  function Rendered(st: Screen, c: int): Screen {
    st.(selection := Clamp(c, |st.expr|))
  }

  /** insertText: `text` goes in at the cursor, and the cursor after it. */
  function Inserted(st: Screen, text: string): Screen {
    Rendered(st.(expr := Left(st) + text + Right(st)), Cursor(st) + |text|)
  }

  /** deleteBeforeCursor: the character before the cursor goes, if any. */
  function Deleted(st: Screen): Screen {
    var c := Cursor(st);
    if c <= 0 then st
    else Rendered(st.(expr := st.expr[..c - 1] + st.expr[c..]), c - 1)
  }

  /** Typing a number right after a result starts a new expression. */
  function Fresh(st: Screen): Screen {
    if st.justEvaluated then Rendered(Screen("", st.selection, false), 0) else st
  }

  /** appendNumber(n). */
  function AfterNumber(st: Screen, n: string): Screen {
    Inserted(Fresh(st), n)
  }

  /**
   * `left.takeLastWhile { it.isDigit() || it == '.' }`: the longest suffix
   * of `left` made of digits and dots.
   */
  function TrailingNumber(left: string): (t: string)
    ensures |t| <= |left|
    ensures forall k :: 0 <= k < |t| ==> t[k] == left[|left| - |t| + k] && InNumber(t[k])
    ensures |t| < |left| ==> !InNumber(left[|left| - |t| - 1])
  {
    if left == [] || !InNumber(left[|left| - 1]) then []
    else
      var t := TrailingNumber(left[..|left| - 1]) + [left[|left| - 1]];
      assert left[..|left| - 1] + [left[|left| - 1]] == left;
      t
  }

  /** appendDot. */
  function AfterDot(st: Screen): Screen {
    var st1 := Fresh(st);
    if '.' in TrailingNumber(Left(st1)) then st1
    else
      var p := Prev(st1);
      if p.None? || IsOperator(p.value) || p.value == '(' then Inserted(st1, "0.")
      else Inserted(st1, ".")
  }

  /** appendOperator(op). */
  function AfterOperator(st: Screen, op: string): Screen {
    var st1 := st.(justEvaluated := false);
    if IsBlank(st1.expr) then
      (if op == "-" then Inserted(st1, "-") else st1)
    else
      var p := Prev(st1);
      if p.None? then st1
      else if IsOperator(p.value) then Inserted(Deleted(st1), op)
      else if p.value == '.' then Inserted(st1, "0" + op)
      else if p.value == '(' && op != "-" then st1
      else Inserted(st1, op)
  }

  /** appendParenSmart. */
  function AfterParen(st: Screen): Screen {
    var st1 := st.(justEvaluated := false);
    var left := Left(st1);
    var p := Prev(st1);
    var canClose := multiset(left)['('] > multiset(left)[')'] && p.Some? && EndsOperand(p.value);
    if canClose then Inserted(st1, ")")
    else if p.Some? && EndsOperand(p.value) then Inserted(st1, "*(")
    else Inserted(st1, "(")
  }

  /** appendPercent. */
  function AfterPercent(st: Screen): Screen {
    var st1 := st.(justEvaluated := false);
    if IsBlank(st1.expr) then st1
    else
      var p := Prev(st1);
      if p.Some? && EndsOperand(p.value) then Inserted(st1, "%") else st1
  }

  /** The Backspace key. */
  function AfterBackspace(st: Screen): Screen {
    Deleted(st).(justEvaluated := false)
  }

  /**
   * What evalExpression hands back for `expr`: "ERR", or the value as
   * `format` writes it (formatDouble is not part of this model).
   */
  function Answer(expr: string, format: real -> string): string {
    match Evaluate(expr)
    case None => "ERR"
    case Some(v) => format(v)
  }

  /** The '=' key. */
  function AfterEquals(st: Screen, format: real -> string): Screen {
    if IsBlank(st.expr) then st
    else
      var last := st.expr[|st.expr| - 1];
      if IsOperator(last) || last == '.' then st
      else
        var result := Answer(st.expr, format);
        if result == "ERR" then st
        else Rendered(Screen(result, st.selection, true), |result|)
  }

  /** The activity: the fields the handlers update, and the handlers. */
  class MainActivity {
    var expr: string
    /** selectionStart of the text field, as the user last placed it. */
    var selection: int
    var justEvaluated: bool

    function State(): Screen
      reads this
    {
      Screen(expr, selection, justEvaluated)
    }

    /** onCreate: an empty text and render(0). */
    constructor()
      ensures State() == Cleared
    {
      expr := "";
      selection := 0;
      justEvaluated := false;
    }

    method Render(cursorPos: int)
      modifies this
      ensures State() == Rendered(old(State()), cursorPos)
    {
      selection := Clamp(cursorPos, |expr|);
    }

    method SafeCursor() returns (c: nat)
      ensures c <= |expr|
      ensures 0 <= selection <= |expr| ==> c == selection
      ensures c == Cursor(State())
    {
      c := Clamp(selection, |expr|);
    }

    method InsertText(text: string)
      modifies this
      ensures State() == Inserted(old(State()), text)
    {
      var cursor := SafeCursor();
      expr := expr[..cursor] + text + expr[cursor..];
      Render(cursor + |text|);
    }

    method DeleteBeforeCursor()
      modifies this
      ensures State() == Deleted(old(State()))
    {
      var cursor := SafeCursor();
      if cursor <= 0 {
        return;
      }
      expr := expr[..cursor - 1] + expr[cursor..];
      Render(cursor - 1);
    }

    method AppendNumber(n: string)
      modifies this
      ensures State() == AfterNumber(old(State()), n)
    {
      if justEvaluated {
        expr := "";
        justEvaluated := false;
        Render(0);
      }
      InsertText(n);
    }

    method AppendDot()
      modifies this
      ensures State() == AfterDot(old(State()))
    {
      hide TrailingNumber, Inserted;
      if justEvaluated {
        expr := "";
        justEvaluated := false;
        Render(0);
      }
      ghost var st1 := State();
      assert st1 == Fresh(old(State()));
      var cursor := SafeCursor();
      var left := expr[..cursor];
      assert left == Left(st1);
      var lastToken := TrailingNumber(left);
      if '.' in lastToken {
        assert AfterDot(old(State())) == st1;
        return;
      }
      if |left| == 0 || IsOperator(left[|left| - 1]) || left[|left| - 1] == '(' {
        assert AfterDot(old(State())) == Inserted(st1, "0.");
        InsertText("0.");
      } else {
        assert AfterDot(old(State())) == Inserted(st1, ".");
        InsertText(".");
      }
    }

    method AppendOperator(op: string)
      modifies this
      ensures State() == AfterOperator(old(State()), op)
    {
      justEvaluated := false;
      if IsBlank(expr) {
        if op == "-" {
          InsertText("-");
        }
        return;
      }
      var cursor := SafeCursor();
      var left := expr[..cursor];
      if |left| == 0 {
        return;
      }
      var prev := left[|left| - 1];
      if IsOperator(prev) {
        expr := expr[..cursor - 1] + expr[cursor..];
        Render(cursor - 1);
        InsertText(op);
        return;
      }
      if prev == '.' {
        InsertText("0" + op);
        return;
      }
      if prev == '(' && op != "-" {
        return;
      }
      InsertText(op);
    }

    method AppendParenSmart()
      modifies this
      ensures State() == AfterParen(old(State()))
    {
      justEvaluated := false;
      var cursor := SafeCursor();
      var left := expr[..cursor];
      var openCount := multiset(left)['('];
      var closeCount := multiset(left)[')'];
      var canClose := openCount > closeCount && |left| > 0 && EndsOperand(left[|left| - 1]);
      if canClose {
        InsertText(")");
        return;
      }
      if |left| > 0 && EndsOperand(left[|left| - 1]) {
        InsertText("*(");
      } else {
        InsertText("(");
      }
    }

    method AppendPercent()
      modifies this
      ensures State() == AfterPercent(old(State()))
    {
      justEvaluated := false;
      if IsBlank(expr) {
        return;
      }
      var cursor := SafeCursor();
      var left := expr[..cursor];
      if |left| == 0 {
        return;
      }
      if EndsOperand(left[|left| - 1]) {
        InsertText("%");
      }
    }

    /** The Clear key. */
    method Clear()
      modifies this
      ensures State() == Cleared
    {
      expr := "";
      justEvaluated := false;
      Render(0);
    }

    /** The Backspace key. */
    method Backspace()
      modifies this
      ensures State() == AfterBackspace(old(State()))
    {
      DeleteBeforeCursor();
      justEvaluated := false;
    }

    /**
     * The '=' key: the native evaluator, then `format` in place of
     * formatDouble; "ERR" leaves everything as it was.
     */
    method Equals(format: real -> string)
      modifies this
      ensures State() == AfterEquals(old(State()), format)
    {
      if IsBlank(expr) {
        return;
      }
      var last := expr[|expr| - 1];
      if IsOperator(last) || last == '.' {
        return;
      }
      var value := EvalExpression(expr);
      var result := if value.None? then "ERR" else format(value.value);
      if result == "ERR" {
        return;
      }
      expr := result;
      justEvaluated := true;
      Render(|expr|);
    }
  }

  /* Editing at the cursor. */

  /**
   * insertText: the text before the cursor, then `text`, then the text
   * after the cursor, with the cursor right after `text`.
   */
  lemma InsertedSplices(st: Screen, text: string)
    ensures var c, r := Cursor(st), Inserted(st, text);
      && |r.expr| == |st.expr| + |text|
      && r.expr[..c] == st.expr[..c]
      && r.expr[c..c + |text|] == text
      && r.expr[c + |text|..] == st.expr[c..]
      && Settled(r) && Cursor(r) == c + |text|
      && Left(r) == Left(st) + text && Right(r) == Right(st)
      && r.justEvaluated == st.justEvaluated
  {
    var c, r := Cursor(st), Inserted(st, text);
    assert r.expr == st.expr[..c] + text + st.expr[c..];
    assert r.expr[..c] == st.expr[..c];
    assert r.expr[c..c + |text|] == text;
    assert r.expr[c + |text|..] == st.expr[c..];
  }

  /**
   * deleteBeforeCursor: at the start nothing changes; elsewhere exactly the
   * character before the cursor goes and the cursor moves back over it.
   */
  lemma DeletedRemovesOne(st: Screen)
    ensures var c, r := Cursor(st), Deleted(st);
      && (c == 0 ==> r == st)
      && (c > 0 ==>
            && |r.expr| == |st.expr| - 1
            && r.expr[..c - 1] == st.expr[..c - 1]
            && r.expr[c - 1..] == st.expr[c..]
            && Settled(r) && Cursor(r) == c - 1
            && r.justEvaluated == st.justEvaluated)
  {
    var c, r := Cursor(st), Deleted(st);
    if c > 0 {
      assert r.expr == st.expr[..c - 1] + st.expr[c..];
      assert r.expr[..c - 1] == st.expr[..c - 1];
      assert r.expr[c - 1..] == st.expr[c..];
    }
  }

  /** Backspace takes back one typed character. */
  lemma DeleteUndoesInsert(st: Screen, ch: char)
    ensures Deleted(Inserted(st, [ch])) == Rendered(st, Cursor(st))
  {
    var c, r := Cursor(st), Inserted(st, [ch]);
    InsertedSplices(st, [ch]);
    DeletedRemovesOne(r);
    assert Deleted(r).expr == st.expr[..c] + st.expr[c..];
    assert st.expr[..c] + st.expr[c..] == st.expr;
  }

  /** Typing the deleted character again restores the text. */
  lemma InsertUndoesDelete(st: Screen)
    requires Cursor(st) > 0
    ensures Inserted(Deleted(st), [st.expr[Cursor(st) - 1]]) == Rendered(st, Cursor(st))
  {
    var c, d := Cursor(st), Deleted(st);
    DeletedRemovesOne(st);
    InsertedSplices(d, [st.expr[c - 1]]);
    var r := Inserted(d, [st.expr[c - 1]]);
    assert r.expr == st.expr[..c - 1] + [st.expr[c - 1]] + st.expr[c..];
    assert st.expr[..c - 1] + [st.expr[c - 1]] == st.expr[..c];
    assert st.expr[..c] + st.expr[c..] == st.expr;
  }

  /* Numbers and the decimal point. */

  /** After a result, a digit or '.' starts a new expression. */
  lemma ResultThenNumber(st: Screen, n: string)
    requires st.justEvaluated
    ensures AfterNumber(st, n) == Screen(n, |n|, false)
    ensures AfterDot(st) == Screen("0.", 2, false)
  {
  }

  /** Before anything but a digit or '.', no number ends. */
  lemma TrailingEmpty(left: string)
    requires left == [] || !InNumber(left[|left| - 1])
    ensures TrailingNumber(left) == []
  {
  }

  /** One more character: a digit or '.' extends the number, anything else ends it. */
  lemma TrailingSnoc(left: string, c: char)
    ensures TrailingNumber(left + [c]) == if InNumber(c) then TrailingNumber(left) + [c] else []
  {
    assert (left + [c])[..|left|] == left;
  }

  /** Typing "." after a number without a dot gives it its one dot. */
  lemma DotEndsNumber(left: string)
    requires '.' !in TrailingNumber(left)
    ensures var after := TrailingNumber(left + ".");
      |after| > 0 && after[|after| - 1] == '.' && '.' !in after[..|after| - 1]
  {
    hide TrailingNumber;
    TrailingSnoc(left, '.');
    var after := TrailingNumber(left) + ['.'];
    assert after[..|after| - 1] == TrailingNumber(left);
  }

  /** Typing "0." where no number ends starts a number with one dot. */
  lemma ZeroDotStartsNumber(left: string)
    requires TrailingNumber(left) == []
    ensures TrailingNumber(left + "0.") == "0."
  {
    hide TrailingNumber;
    var zero := left + ['0'];
    assert left + "0." == zero + ['.'];
    TrailingSnoc(left, '0');
    assert TrailingNumber(zero) == ['0'];
    TrailingSnoc(zero, '.');
    assert TrailingNumber(zero + ['.']) == ['0'] + ['.'];
    assert ['0'] + ['.'] == "0.";
  }

  /** What the '.' key types when the number before the cursor has no '.'. */
  lemma DotTypes(st: Screen)
    requires '.' !in TrailingNumber(Left(Fresh(st)))
    ensures var st1 := Fresh(st); var p := Prev(st1);
      Left(AfterDot(st)) == Left(st1) + if p.None? || IsOperator(p.value) || p.value == '(' then "0." else "."
  {
    hide TrailingNumber, Inserted, Left, Right, Prev, Rendered;
    var st1 := Fresh(st);
    var p := Prev(st1);
    var t := if p.None? || IsOperator(p.value) || p.value == '(' then "0." else ".";
    assert AfterDot(st) == Inserted(st1, t);
    InsertedSplices(st1, t);
  }

  /**
   * The '.' key never gives the number before the cursor a second '.':
   * when that number has none, the '.' just typed is its only one.
   */
  lemma DotGivesOneDot(st: Screen)
    requires '.' !in TrailingNumber(Left(Fresh(st)))
    ensures var after := TrailingNumber(Left(AfterDot(st)));
      |after| > 0 && after[|after| - 1] == '.' && '.' !in after[..|after| - 1]
  {
    hide TrailingNumber, Inserted, Left, Right, Prev, Rendered, Fresh, AfterDot;
    var st1 := Fresh(st);
    var left := Left(st1);
    var p := Prev(st1);
    DotTypes(st);
    if p.None? || IsOperator(p.value) || p.value == '(' {
      PrevIsLast(st1);
      TrailingEmpty(left);
      ZeroDotStartsNumber(left);
      assert "0."[..1] == "0";
    } else {
      DotEndsNumber(left);
    }
  }

  /**
   * The '.' key looks only at the text before the cursor: with the cursor
   * between "1" and ".5", it types a second '.' into the number.
   */
  lemma DotLooksLeftOnly()
    ensures AfterDot(Screen("1.5", 1, false)) == Screen("1..5", 2, false)
  {
    hide TrailingNumber, Left, Right, Prev, Cursor;
    var st := Screen("1.5", 1, false);
    DotExampleView();
    assert AfterDot(st) == Inserted(st, ".");
    assert "1" + "." + ".5" == "1..5";
    assert Inserted(st, ".") == Rendered(st.(expr := "1..5"), 2);
  }

  /** The screen of DotLooksLeftOnly, piece by piece. */
  lemma DotExampleView()
    ensures var st := Screen("1.5", 1, false);
      && Cursor(st) == 1 && Left(st) == "1" && Right(st) == ".5" && Prev(st) == Some('1')
      && TrailingNumber("1") == "1"
  {
    TrailingSnoc([], '1');
    assert [] + ['1'] == "1";
  }

  /**
   * The paren key too looks only at the text before the cursor: inside
   * "(1|)" it closes the group once more, giving "(1))".
   */
  lemma ParenLooksLeftOnly()
    ensures AfterParen(Screen("(1)", 2, false)).expr == "(1))"
  {
    var st := Screen("(1)", 2, false);
    assert Left(st) == "(1" && Right(st) == ")" && Prev(st) == Some('1');
    assert Balance("(1") == 1 by {
      assert multiset("(1") == multiset{'(', '1'};
    }
    ParenChoice(st);
    assert "(1" + ")" + ")" == "(1))";
  }

  /* Operators. */

  /** On a blank text only '-' goes in, as a unary minus. */
  lemma OperatorOnBlank(st: Screen, op: string)
    requires IsBlank(st.expr)
    ensures var r := AfterOperator(st, op);
      && !r.justEvaluated
      && (op == "-" ==> r.expr == Left(st) + "-" + Right(st))
      && (op != "-" ==> r.expr == st.expr)
      && (op != "-" ==> r == st.(justEvaluated := false))
  {
  }

  /** An operator typed after an operator replaces it. */
  lemma OperatorReplacesOperator(st: Screen, op: string)
    requires !IsBlank(st.expr) && Prev(st).Some? && IsOperator(Prev(st).value)
    ensures var c, r := Cursor(st), AfterOperator(st, op);
      && r.expr == st.expr[..c - 1] + op + st.expr[c..]
      && Cursor(r) == c - 1 + |op|
      && (|op| == 1 ==> |r.expr| == |st.expr|)
  {
    var st1 := st.(justEvaluated := false);
    var c := Cursor(st);
    DeletedRemovesOne(st1);
    var d := Deleted(st1);
    InsertedSplices(d, op);
    assert d.expr[..c - 1] == st.expr[..c - 1] && d.expr[c - 1..] == st.expr[c..];
  }

  /** An operator after '.' completes the number with a '0'. */
  lemma OperatorAfterDot(st: Screen, op: string)
    requires !IsBlank(st.expr) && Prev(st) == Some('.')
    ensures AfterOperator(st, op).expr == Left(st) + "0" + op + Right(st)
  {
    assert Left(st) + ("0" + op) + Right(st) == Left(st) + "0" + op + Right(st);
  }

  /** After '(' only '-' goes in. */
  lemma OperatorAfterOpen(st: Screen, op: string)
    requires !IsBlank(st.expr) && Prev(st) == Some('(')
    ensures AfterOperator(st, op).expr == if op == "-" then Left(st) + "-" + Right(st) else st.expr
  {
  }

  /**
   * Replacing an operator skips the after-'(' rule: "(", "-", "*" gives
   * "(*", where "*" right after "(" is refused.
   */
  lemma ReplaceAfterOpen()
    ensures AfterOperator(Screen("(-", 2, false), "*").expr == "(*"
  {
    var st := Screen("(-", 2, false);
    assert !IsBlank(st.expr) by {
      assert !IsWhitespace(st.expr[0]);
    }
    assert Prev(st) == Some('-');
    OperatorReplacesOperator(st, "*");
    assert st.expr[..1] + "*" + st.expr[2..] == "(*";
  }

  /** No two operator characters stand side by side. */
  predicate NoOperatorPair(s: string) {
    forall k :: 0 < k < |s| ==> !(IsOperator(s[k - 1]) && IsOperator(s[k]))
  }

  lemma NoOperatorPairSnoc(s: string, c: char)
    requires NoOperatorPair(s)
    requires s != [] && IsOperator(c) ==> !IsOperator(s[|s| - 1])
    ensures NoOperatorPair(s + [c])
  {
    var t := s + [c];
    forall k | 0 < k < |t|
      ensures !(IsOperator(t[k - 1]) && IsOperator(t[k]))
    {
      if k < |s| {
        assert t[k - 1] == s[k - 1] && t[k] == s[k];
      }
    }
  }

  /** At the end of the text, insertText appends. */
  lemma InsertedAtEnd(st: Screen, text: string)
    requires Cursor(st) == |st.expr|
    ensures Inserted(st, text).expr == st.expr + text
  {
    assert st.expr[Cursor(st)..] == [];
  }

  lemma NoOperatorPairPrefix(s: string, n: nat)
    requires NoOperatorPair(s) && n <= |s|
    ensures NoOperatorPair(s[..n])
  {
    var t := s[..n];
    forall k | 0 < k < |t|
      ensures !(IsOperator(t[k - 1]) && IsOperator(t[k]))
    {
      assert t[k - 1] == s[k - 1] && t[k] == s[k];
    }
  }

  /**
   * Typed at the end of the text, the operator keys never leave two
   * operators side by side.
   */
  lemma OperatorKeepsSingle(st: Screen, op: char)
    requires IsOperator(op) && Cursor(st) == |st.expr| && NoOperatorPair(st.expr)
    ensures NoOperatorPair(AfterOperator(st, [op]).expr)
  {
    hide Inserted, Deleted;
    var st1 := st.(justEvaluated := false);
    var s := st.expr;
    var r := AfterOperator(st, [op]);
    if IsBlank(s) {
      if op == '-' {
        assert s != [] ==> IsWhitespace(s[|s| - 1]);
        NoOperatorPairSnoc(s, '-');
        InsertedAtEnd(st1, "-");
      }
    } else {
      var p := Prev(st1);
      if p.Some? {
        if IsOperator(p.value) {
          var d := Deleted(st1);
          DeletedRemovesOne(st1);
          assert d.expr == s[..|s| - 1];
          NoOperatorPairPrefix(s, |s| - 1);
          assert |s| >= 2 ==> !IsOperator(s[|s| - 2]);
          NoOperatorPairSnoc(d.expr, op);
          InsertedAtEnd(d, [op]);
        } else if p.value == '.' {
          NoOperatorPairSnoc(s, '0');
          NoOperatorPairSnoc(s + ['0'], op);
          InsertedAtEnd(st1, "0" + [op]);
          assert s + ("0" + [op]) == s + ['0'] + [op];
        } else if p.value != '(' || op == '-' {
          NoOperatorPairSnoc(s, op);
          InsertedAtEnd(st1, [op]);
        }
      }
    }
  }

  /* Parentheses and percent. */

  /**
   * The paren key closes a parenthesis when one is open before the cursor
   * and an operand ends there; after an operand with nothing to close it
   * opens a group multiplied by that operand; elsewhere it opens a group.
   */
  lemma ParenChoice(st: Screen)
    ensures var ends := Prev(st).Some? && EndsOperand(Prev(st).value);
      AfterParen(st).expr == Left(st) + (if Balance(Left(st)) > 0 && ends then ")" else if ends then "*(" else "(") + Right(st)
  {
  }

  /** At the end of the text the paren key appends ")", "*(" or "(". */
  lemma ParenAtEnd(st: Screen)
    requires Cursor(st) == |st.expr|
    ensures var s := st.expr;
      var ends := s != [] && EndsOperand(s[|s| - 1]);
      AfterParen(st).expr == s + (if Balance(s) > 0 && ends then ")" else if ends then "*(" else "(")
  {
    var st1 := st.(justEvaluated := false);
    assert Left(st1) == st.expr;
    PrevIsLast(st1);
    var p := Prev(st1);
    if multiset(st.expr)['('] > multiset(st.expr)[')'] && p.Some? && EndsOperand(p.value) {
      InsertedAtEnd(st1, ")");
    } else if p.Some? && EndsOperand(p.value) {
      InsertedAtEnd(st1, "*(");
    } else {
      InsertedAtEnd(st1, "(");
    }
  }

  /**
   * Typed at the end of the text, the paren key never closes more
   * parentheses than are open, so the evaluator never rejects what it
   * builds for an extra ')'.
   */
  lemma ParenKeepsNoDeficit(st: Screen)
    requires Cursor(st) == |st.expr| && NoDeficit(st.expr, 0)
    ensures NoDeficit(AfterParen(st).expr, 0)
  {
    var s := st.expr;
    var ends := s != [] && EndsOperand(s[|s| - 1]);
    ParenAtEnd(st);
    hide AfterParen, Balance, NoDeficit;
    NoDeficitWhole(s, 0);
    if Balance(s) > 0 && ends {
      BalanceSnoc(s, ')');
      NoDeficitSnoc(s, ')');
    } else if ends {
      BalanceSnoc(s, '*');
      NoDeficitSnoc(s, '*');
      BalanceSnoc(s + ['*'], '(');
      NoDeficitSnoc(s + ['*'], '(');
      assert s + "*(" == s + ['*'] + ['('];
    } else {
      BalanceSnoc(s, '(');
      NoDeficitSnoc(s, '(');
    }
  }

  /** '%' goes in only after a digit or ')'; elsewhere the text stays. */
  lemma PercentOnlyAfterOperand(st: Screen)
    ensures var r, ok := AfterPercent(st), !IsBlank(st.expr) && Prev(st).Some? && EndsOperand(Prev(st).value);
      && !r.justEvaluated
      && (ok ==> r.expr == Left(st) + "%" + Right(st))
      && (!ok ==> r.expr == st.expr)
  {
  }

  /* The '=' key. */

  /** A text '=' may evaluate: not blank, and ending in neither an operator nor '.'. */
  predicate Complete(s: string) {
    !IsBlank(s) && !IsOperator(s[|s| - 1]) && s[|s| - 1] != '.'
  }

  /**
   * '=' replaces the text by the formatted result, with the cursor at its
   * end and `justEvaluated` set, exactly when the text is complete and the
   * evaluator accepts it; otherwise nothing changes.
   */
  lemma EqualsOutcome(st: Screen, format: real -> string)
    ensures var v := Evaluate(st.expr);
      var ok := Complete(st.expr) && v.Some? && format(v.value) != "ERR";
      && (ok ==> AfterEquals(st, format) == Screen(format(v.value), |format(v.value)|, true))
      && (!ok ==> AfterEquals(st, format) == st)
  {
  }

  /** Every typing key leaves the cursor within the text, once it is. */
  lemma TypingKeepsSettled(st: Screen, n: string, op: string)
    requires Settled(st)
    ensures Settled(AfterNumber(st, n)) && Settled(AfterDot(st))
    ensures Settled(AfterOperator(st, op)) && Settled(AfterParen(st))
    ensures Settled(AfterPercent(st))
  {
    hide Evaluate, TrailingNumber, IsBlank;
  }

  /** Clear, Backspace and '=' leave the cursor within the text, once it is. */
  lemma CommandsKeepSettled(st: Screen, format: real -> string)
    requires Settled(st)
    ensures Settled(AfterBackspace(st)) && Settled(AfterEquals(st, format)) && Settled(Cleared)
  {
    hide Evaluate, TrailingNumber, IsBlank;
  }
}
