/** What the parser of parsing.py does on the inputs its rules are about: the save/restore
    discipline of `try_to_parse`, the shape precedence climbing gives to two operators in a row,
    how far a unary operator reaches, what brackets return, and where parsing stops. */
module ParsingProperties {
  import opened Wrappers
  import opened Lexing
  import opened Parsing
  import AstNodes

  // ----- try_to_parse -----

  /** A rule that fails and leaves no saved entry of its own behind makes `try_to_parse`
      restore exactly the state it started from. */
  lemma TryRuleFailureRestores(tokens: seq<Token>, rule: Rule, st: StackState)
    requires ApplyRule(tokens, rule, PushAt(st)).result.Err?
    requires |ApplyRule(tokens, rule, PushAt(st)).state.saved| == |st.saved| + 1
    ensures TryRule(tokens, rule, st) == Attempt(None, st)
  {
    var after := ApplyRule(tokens, rule, PushAt(st)).state;
    var k := |st.saved|;
    assert after.saved[..k + 1] == st.saved + [st.cursor];
    assert after.saved == after.saved[..k + 1];
    assert RestoreAt(after) == st;
  }

  /** A rule that succeeds leaves the cursor `try_to_parse` pushed on the stack, at the level
      where it was pushed, under whatever the rule itself left there. */
  lemma TryRuleSuccessKeepsEntry(tokens: seq<Token>, rule: Rule, st: StackState)
    requires ApplyRule(tokens, rule, PushAt(st)).result.Ok?
    ensures var a := TryRule(tokens, rule, st);
      && a.node == Some(ApplyRule(tokens, rule, PushAt(st)).result.value)
      && |a.state.saved| > |st.saved|
      && a.state.saved[..|st.saved|] == st.saved
      && a.state.saved[|st.saved|] == st.cursor
  {
    var after := ApplyRule(tokens, rule, PushAt(st)).state;
    var k := |st.saved|;
    assert after.saved[..k + 1] == st.saved + [st.cursor];
    assert after.saved[k] == after.saved[..k + 1][k];
    assert after.saved[..k] == after.saved[..k + 1][..k];
  }

  // ----- Primary expressions -----

  /** An integer token is a primary on its own: the first alternative succeeds, takes one
      token and leaves its saved cursor on the stack. */
  lemma PrimaryOnInteger(tokens: seq<Token>, st: StackState)
    requires st.cursor < |tokens| && tokens[st.cursor].kind == Integer
    ensures ParsePrimary(tokens, st)
      == Step(Ok(AstNodes.IntegerLiteral(tokens[st.cursor].value)), StackState(st.cursor + 1, st.saved + [st.cursor]))
  {
    var pushed := PushAt(st);
    assert ParseIntegerLiteral(tokens, pushed)
      == Step(Ok(AstNodes.IntegerLiteral(tokens[st.cursor].value)), pushed.(cursor := st.cursor + 1));
    assert TryRule(tokens, IntegerLiteralRule, st)
      == Attempt(Some(AstNodes.IntegerLiteral(tokens[st.cursor].value)), StackState(st.cursor + 1, st.saved + [st.cursor]));
  }

  /** The integer alternative fails, and is undone, where there is no integer token. */
  lemma IntegerAlternativeFails(tokens: seq<Token>, st: StackState)
    requires st.cursor < |tokens| ==> tokens[st.cursor].kind != Integer
    ensures TryRule(tokens, IntegerLiteralRule, st) == Attempt(None, st)
  {
    var pushed := PushAt(st);
    assert ParseIntegerLiteral(tokens, pushed).result.Err?;
    TryRuleFailureRestores(tokens, IntegerLiteralRule, st);
  }

  /** The unary alternative fails, and is undone, where there is no `+` or `-`. */
  lemma UnaryAlternativeFails(tokens: seq<Token>, st: StackState)
    requires st.cursor < |tokens| ==> tokens[st.cursor].kind != Plus && tokens[st.cursor].kind != Minus
    ensures TryRule(tokens, UnaryOpRule, st) == Attempt(None, st)
  {
    var pushed := PushAt(st);
    assert ParseUnary(tokens, pushed).state.saved == pushed.saved;
    TryRuleFailureRestores(tokens, UnaryOpRule, st);
  }

  /** The bracket alternative fails, and is undone, where there is no `(`. */
  lemma BracketAlternativeFails(tokens: seq<Token>, st: StackState)
    requires st.cursor < |tokens| ==> tokens[st.cursor].kind != LeftParen
    ensures TryRule(tokens, BracketedRule, st) == Attempt(None, st)
  {
    var pushed := PushAt(st);
    assert ParseBracketed(tokens, pushed).state.saved == pushed.saved;
    TryRuleFailureRestores(tokens, BracketedRule, st);
  }

  /** A `+` or `-` starts a unary primary whose operand is the whole binary expression after
      it; the cursor pushed for the unary alternative stays on the stack. */
  lemma PrimaryByUnary(tokens: seq<Token>, st: StackState)
    requires st.cursor < |tokens| && (tokens[st.cursor].kind == Plus || tokens[st.cursor].kind == Minus)
    requires ParseBinary(tokens, StackState(st.cursor + 1, st.saved + [st.cursor])).result.Ok?
    ensures var e := ParseBinary(tokens, StackState(st.cursor + 1, st.saved + [st.cursor]));
      ParsePrimary(tokens, st) == Step(Ok(AstNodes.UnaryOpExpression(tokens[st.cursor].value, e.result.value)), e.state)
  {
    IntegerAlternativeFails(tokens, st);
    var e := ParseBinary(tokens, StackState(st.cursor + 1, st.saved + [st.cursor]));
    var u := AstNodes.UnaryOpExpression(tokens[st.cursor].value, e.result.value);
    assert ParseUnary(tokens, PushAt(st)) == Step(Ok(u), e.state);
    assert TryRule(tokens, UnaryOpRule, st) == Attempt(Some(u), e.state);
  }

  /** A `(` starts a bracketed primary: when the inner expression is followed by `)`, the
      primary is the inner node and the cursor is past the `)`. */
  lemma PrimaryByBracket(tokens: seq<Token>, st: StackState)
    requires st.cursor < |tokens| && tokens[st.cursor].kind == LeftParen
    requires var e := ParseBinary(tokens, StackState(st.cursor + 1, st.saved + [st.cursor]));
      e.result.Ok? && e.state.cursor < |tokens| && tokens[e.state.cursor].kind == RightParen
    ensures var e := ParseBinary(tokens, StackState(st.cursor + 1, st.saved + [st.cursor]));
      ParsePrimary(tokens, st) == Step(Ok(e.result.value), e.state.(cursor := e.state.cursor + 1))
  {
    IntegerAlternativeFails(tokens, st);
    UnaryAlternativeFails(tokens, st);
    var e := ParseBinary(tokens, StackState(st.cursor + 1, st.saved + [st.cursor]));
    var after := e.state.(cursor := e.state.cursor + 1);
    assert ParseBracketed(tokens, PushAt(st)) == Step(Ok(e.result.value), after);
    assert TryRule(tokens, BracketedRule, st) == Attempt(Some(e.result.value), after);
  }

  /** A `(` whose inner expression runs to the end of the input: the bracket alternative
      fails, and the restore pops whatever is on top of the stack at that point. */
  lemma PrimaryByUnclosedBracket(tokens: seq<Token>, st: StackState)
    requires st.cursor < |tokens| && tokens[st.cursor].kind == LeftParen
    requires var e := ParseBinary(tokens, StackState(st.cursor + 1, st.saved + [st.cursor]));
      e.result.Ok? && e.state.cursor >= |tokens|
    ensures var e := ParseBinary(tokens, StackState(st.cursor + 1, st.saved + [st.cursor]));
      var r := ParsePrimary(tokens, st);
      r.result.Err? && r.state == RestoreAt(e.state)
  {
    IntegerAlternativeFails(tokens, st);
    UnaryAlternativeFails(tokens, st);
    var e := ParseBinary(tokens, StackState(st.cursor + 1, st.saved + [st.cursor]));
    assert ParseBracketed(tokens, PushAt(st)) == Step(Err(EndOfInput()), e.state);
    assert TryRule(tokens, BracketedRule, st) == Attempt(None, RestoreAt(e.state));
  }

  /** At the end of the input every alternative fails at its first pop, and the primary fails
      with the end-of-input error, leaving the state as it was. */
  lemma PrimaryAtEnd(tokens: seq<Token>, st: StackState)
    requires st.cursor >= |tokens|
    ensures ParsePrimary(tokens, st) == Step(Err(EndOfInput()), st)
  {
    IntegerAlternativeFails(tokens, st);
    UnaryAlternativeFails(tokens, st);
    BracketAlternativeFails(tokens, st);
  }

  /** A token that is neither an integer nor a unary operator nor `(` is not a primary; the
      error names it and the state is as it was. */
  lemma PrimaryRejects(tokens: seq<Token>, st: StackState)
    requires st.cursor < |tokens|
    requires tokens[st.cursor].kind !in {Integer, Plus, Minus, LeftParen}
    ensures ParsePrimary(tokens, st) == Step(Err(NoPrimary(tokens[st.cursor])), st)
  {
    IntegerAlternativeFails(tokens, st);
    UnaryAlternativeFails(tokens, st);
    BracketAlternativeFails(tokens, st);
  }

  // ----- Climbing -----

  /** Climbing stops, with the left operand it was given, where the next token is not an
      operator of enough precedence. */
  lemma ClimbStops(tokens: seq<Token>, lhs: Node, minPrec: int, st: StackState)
    requires !Continues(tokens, st, minPrec)
    ensures Climb(tokens, lhs, minPrec, st) == Step(Ok(lhs), st)
  {
  }

  lemma ClimbRhsStops(tokens: seq<Token>, rhs: Node, opPrec: int, st: StackState)
    requires !BindsTighter(tokens, st, opPrec)
    ensures ClimbRhs(tokens, rhs, opPrec, st) == Step(Ok(rhs), st)
  {
  }

  /** The last operator of the input, followed by an integer: one node, and the input is used
      up. */
  lemma IterationOnLastOperand(tokens: seq<Token>, lhs: Node, st: StackState)
    requires st.cursor + 2 == |tokens| && IsBinaryOp(tokens[st.cursor].value)
    requires tokens[st.cursor + 1].kind == Integer
    ensures ClimbIteration(tokens, lhs, st)
      == Step(Ok(AstNodes.BinaryOpExpression(lhs, tokens[st.cursor].value, AstNodes.IntegerLiteral(tokens[st.cursor + 1].value))),
              StackState(st.cursor + 2, st.saved + [st.cursor + 1]))
  {
    var afterOp := st.(cursor := st.cursor + 1);
    PrimaryOnInteger(tokens, afterOp);
    var end := StackState(st.cursor + 2, st.saved + [st.cursor + 1]);
    ClimbRhsStops(tokens, AstNodes.IntegerLiteral(tokens[st.cursor + 1].value), PrecedenceOf(tokens[st.cursor]), end);
  }

  /** `a o b` from the cursor to the end of the input, with integers `a` and `b`. */
  lemma BinaryOnLastThree(tokens: seq<Token>, st: StackState)
    requires st.cursor + 3 == |tokens| && tokens[st.cursor].kind == Integer
    requires IsBinaryOp(tokens[st.cursor + 1].value) && tokens[st.cursor + 2].kind == Integer
    ensures ParseBinary(tokens, st) == Step(
      Ok(AstNodes.BinaryOpExpression(AstNodes.IntegerLiteral(tokens[st.cursor].value), tokens[st.cursor + 1].value,
                                     AstNodes.IntegerLiteral(tokens[st.cursor + 2].value))),
      StackState(st.cursor + 3, st.saved + [st.cursor, st.cursor + 2]))
  {
    var A := AstNodes.IntegerLiteral(tokens[st.cursor].value);
    var s1 := StackState(st.cursor + 1, st.saved + [st.cursor]);
    PrimaryOnInteger(tokens, st);
    IterationOnLastOperand(tokens, A, s1);
    assert s1.saved + [st.cursor + 2] == st.saved + [st.cursor, st.cursor + 2];
    var ab := AstNodes.BinaryOpExpression(A, tokens[st.cursor + 1].value, AstNodes.IntegerLiteral(tokens[st.cursor + 2].value));
    ClimbStops(tokens, ab, 0, StackState(st.cursor + 3, st.saved + [st.cursor, st.cursor + 2]));
  }

  /** `a o1 b o2 c` with integers `a`, `b`, `c`: the second operator takes `b` away from the
      first only when it binds strictly tighter; otherwise the two associate to the left. All
      five tokens are used, and the three cursors the integer alternatives saved stay on the
      stack. */
  lemma TwoOperators(a: Token, o1: Token, b: Token, o2: Token, c: Token)
    requires a.kind == Integer && b.kind == Integer && c.kind == Integer
    requires IsBinaryOp(o1.value) && IsBinaryOp(o2.value)
    ensures var tokens := [a, o1, b, o2, c];
      var A, B, C := AstNodes.IntegerLiteral(a.value), AstNodes.IntegerLiteral(b.value), AstNodes.IntegerLiteral(c.value);
      ParseBinary(tokens, Fresh) == Step(
        Ok(if PrecedenceOf(o2) > PrecedenceOf(o1)
           then AstNodes.BinaryOpExpression(A, o1.value, AstNodes.BinaryOpExpression(B, o2.value, C))
           else AstNodes.BinaryOpExpression(AstNodes.BinaryOpExpression(A, o1.value, B), o2.value, C)),
        StackState(5, [0, 2, 4]))
  {
    var tokens := [a, o1, b, o2, c];
    var A, B, C := AstNodes.IntegerLiteral(a.value), AstNodes.IntegerLiteral(b.value), AstNodes.IntegerLiteral(c.value);
    var s1 := StackState(1, [0]);
    assert Fresh.saved + [Fresh.cursor] == [0] && [0] + [2] == [0, 2];
    PrimaryOnInteger(tokens, Fresh);
    assert ParseBinary(tokens, Fresh) == Climb(tokens, A, 0, s1);
    PrimaryOnInteger(tokens, StackState(2, [0]));
    if PrecedenceOf(o2) > PrecedenceOf(o1) {
      RightOperandClimbs(tokens, A, B, C);
    } else {
      LeftOperandFolds(tokens, A, B, C);
    }
  }

  lemma RightOperandClimbs(tokens: seq<Token>, A: Node, B: Node, C: Node)
    requires |tokens| == 5 && IsBinaryOp(tokens[1].value) && IsBinaryOp(tokens[3].value)
    requires tokens[4].kind == Integer && C == AstNodes.IntegerLiteral(tokens[4].value)
    requires ParsePrimary(tokens, StackState(2, [0])) == Step(Ok(B), StackState(3, [0, 2]))
    requires PrecedenceOf(tokens[3]) > PrecedenceOf(tokens[1])
    ensures Climb(tokens, A, 0, StackState(1, [0]))
      == Step(Ok(AstNodes.BinaryOpExpression(A, tokens[1].value, AstNodes.BinaryOpExpression(B, tokens[3].value, C))),
              StackState(5, [0, 2, 4]))
  {
    var s3, s5 := StackState(3, [0, 2]), StackState(5, [0, 2, 4]);
    var p1, p2 := PrecedenceOf(tokens[1]), PrecedenceOf(tokens[3]);
    var bc := AstNodes.BinaryOpExpression(B, tokens[3].value, C);
    assert s3.saved + [4] == s5.saved;
    IterationOnLastOperand(tokens, B, s3);
    ClimbStops(tokens, bc, p2, s5);
    assert Climb(tokens, B, p2, s3) == Step(Ok(bc), s5);
    ClimbRhsStops(tokens, bc, p1, s5);
    assert ClimbRhs(tokens, B, p1, s3) == Step(Ok(bc), s5);
    var abc := AstNodes.BinaryOpExpression(A, tokens[1].value, bc);
    assert ClimbIteration(tokens, A, StackState(1, [0])) == Step(Ok(abc), s5);
    ClimbStops(tokens, abc, 0, s5);
  }

  lemma LeftOperandFolds(tokens: seq<Token>, A: Node, B: Node, C: Node)
    requires |tokens| == 5 && IsBinaryOp(tokens[1].value) && IsBinaryOp(tokens[3].value)
    requires tokens[4].kind == Integer && C == AstNodes.IntegerLiteral(tokens[4].value)
    requires ParsePrimary(tokens, StackState(2, [0])) == Step(Ok(B), StackState(3, [0, 2]))
    requires PrecedenceOf(tokens[3]) <= PrecedenceOf(tokens[1])
    ensures Climb(tokens, A, 0, StackState(1, [0]))
      == Step(Ok(AstNodes.BinaryOpExpression(AstNodes.BinaryOpExpression(A, tokens[1].value, B), tokens[3].value, C)),
              StackState(5, [0, 2, 4]))
  {
    var s1, s3, s5 := StackState(1, [0]), StackState(3, [0, 2]), StackState(5, [0, 2, 4]);
    ClimbRhsStops(tokens, B, PrecedenceOf(tokens[1]), s3);
    var ab := AstNodes.BinaryOpExpression(A, tokens[1].value, B);
    assert ClimbIteration(tokens, A, s1) == Step(Ok(ab), s3);
    assert s3.saved + [4] == s5.saved;
    IterationOnLastOperand(tokens, ab, s3);
    var abc := AstNodes.BinaryOpExpression(ab, tokens[3].value, C);
    ClimbStops(tokens, abc, 0, s5);
    assert Climb(tokens, ab, 0, s3) == Step(Ok(abc), s5);
  }

  /** After a unary operator the source parses a whole binary expression, so `-a o b` is the
      sign applied to `a o b`, whatever `o` is. */
  lemma UnaryTakesWholeExpression(m: Token, a: Token, o: Token, b: Token)
    requires m.kind == Plus || m.kind == Minus
    requires a.kind == Integer && b.kind == Integer && IsBinaryOp(o.value)
    ensures var tokens := [m, a, o, b];
      var A, B := AstNodes.IntegerLiteral(a.value), AstNodes.IntegerLiteral(b.value);
      ParseBinary(tokens, Fresh)
        == Step(Ok(AstNodes.UnaryOpExpression(m.value, AstNodes.BinaryOpExpression(A, o.value, B))), StackState(4, [0, 1, 3]))
  {
    var tokens := [m, a, o, b];
    var ab := AstNodes.BinaryOpExpression(AstNodes.IntegerLiteral(a.value), o.value, AstNodes.IntegerLiteral(b.value));
    var s4 := StackState(4, [0, 1, 3]);
    assert Fresh.saved + [Fresh.cursor] == [0] && [0] + [1, 3] == [0, 1, 3];
    BinaryOnLastThree(tokens, StackState(1, [0]));
    PrimaryByUnary(tokens, Fresh);
    ClimbStops(tokens, AstNodes.UnaryOpExpression(m.value, ab), 0, s4);
  }

  /** `( a )`: the bracket contributes no node of its own; the result is the integer. */
  lemma BracketIsTransparent(l: Token, a: Token, r: Token)
    requires l.kind == LeftParen && a.kind == Integer && r.kind == RightParen && !IsBinaryOp(r.value)
    ensures ParseBinary([l, a, r], Fresh) == Step(Ok(AstNodes.IntegerLiteral(a.value)), StackState(3, [0, 1]))
  {
    var tokens := [l, a, r];
    var A := AstNodes.IntegerLiteral(a.value);
    var inner := StackState(1, [0]);
    assert Fresh.saved + [Fresh.cursor] == [0] && [0] + [1] == [0, 1];
    PrimaryOnInteger(tokens, inner);
    ClimbStops(tokens, A, 0, StackState(2, [0, 1]));
    assert ParseBinary(tokens, inner) == Step(Ok(A), StackState(2, [0, 1]));
    PrimaryByBracket(tokens, Fresh);
    ClimbStops(tokens, A, 0, StackState(3, [0, 1]));
  }

  /** `( a o b` with no closing bracket. The bracket alternative fails at the end of the input
      and pops the top of the stack, which is the entry the integer alternative left for `b`,
      not the one pushed for the bracket. The cursor lands on `b`, and the error is that `b`
      starts no primary. */
  lemma UnclosedBracket(l: Token, a: Token, o: Token, b: Token)
    requires l.kind == LeftParen && a.kind == Integer && b.kind == Integer && IsBinaryOp(o.value)
    ensures ParseBinary([l, a, o, b], Fresh) == Step(Err(NoPrimary(b)), StackState(3, [0, 1]))
  {
    var tokens := [l, a, o, b];
    assert Fresh.saved + [Fresh.cursor] == [0] && [0] + [1, 3] == [0, 1, 3];
    BinaryOnLastThree(tokens, StackState(1, [0]));
    PrimaryByUnclosedBracket(tokens, Fresh);
    assert RestoreAt(StackState(4, [0, 1, 3])) == StackState(3, [0, 1]);
  }

  /** A sign followed by a token that starts no primary: the unary alternative fails inside,
      is undone, and the error names the sign, not the token after it. */
  lemma SignWithoutOperand(tokens: seq<Token>)
    requires |tokens| >= 2 && (tokens[0].kind == Plus || tokens[0].kind == Minus)
    requires tokens[1].kind !in {Integer, Plus, Minus, LeftParen}
    ensures ParseBinary(tokens, Fresh) == Step(Err(NoPrimary(tokens[0])), Fresh)
  {
    var inner := StackState(1, [0]);
    assert PushAt(Fresh) == StackState(0, [0]);
    PrimaryRejects(tokens, inner);
    assert ParseUnary(tokens, PushAt(Fresh)) == Step(Err(NoPrimary(tokens[1])), inner);
    TryRuleFailureRestores(tokens, UnaryOpRule, Fresh);
    IntegerAlternativeFails(tokens, Fresh);
    BracketAlternativeFails(tokens, Fresh);
  }

  /** An integer followed by anything but an operator is the whole result: nothing checks that
      the rest of the input is used. */
  lemma TrailingTokensIgnored(tokens: seq<Token>)
    requires |tokens| > 0 && tokens[0].kind == Integer
    requires |tokens| > 1 ==> !IsBinaryOp(tokens[1].value)
    ensures ParseBinary(tokens, Fresh) == Step(Ok(AstNodes.IntegerLiteral(tokens[0].value)), StackState(1, [0]))
  {
    assert Fresh.saved + [Fresh.cursor] == [0];
    PrimaryOnInteger(tokens, Fresh);
    ClimbStops(tokens, AstNodes.IntegerLiteral(tokens[0].value), 0, StackState(1, [0]));
  }
}
