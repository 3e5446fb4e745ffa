/** Whole texts through `lex` and the parser, as `parse_expression` in compiler.py runs them:
    precedence, associativity, the reach of a unary sign, brackets, whitespace, and the error
    for an unclosed bracket. */
module Examples {
  import opened Wrappers
  import opened Decimal
  import opened Lexing
  import opened Parsing
  import opened ParsingProperties
  import AstNodes

  /** A digit with no digit after it is an integer token of one character. */
  lemma LexOneDigit(text: string, start: nat)
    requires start < |text| && IsDigit(text[start])
    requires start + 1 < |text| ==> !IsDigit(text[start + 1])
    ensures LongestMatch(text, start) == Some(Token(Integer, Int(DigitValue(text[start])), Slice(start, start + 1)))
  {
    LongestMatchDigits(text, start);
    assert DecimalValue(text[start..start + 1]) == DecimalValue([]) * 10 + DigitValue(text[start]);
  }

  /** A text in which every character is a token of its own lexes to those tokens. */
  lemma {:induction false} LexSingles(text: string, tokens: seq<Token>, k: nat)
    requires |tokens| == |text| && k <= |text|
    requires forall i :: k <= i < |text| ==> LongestMatch(text, i) == Some(tokens[i]) && tokens[i].slice.stop == i + 1
    ensures LexFrom(text, k) == Ok(tokens[k..])
    decreases |text| - k
  {
    if k < |text| {
      LexSingles(text, tokens, k + 1);
      assert tokens[k..] == [tokens[k]] + tokens[k + 1..];
    }
  }

  function IntTok(n: nat, at: nat): Token {
    Token(Integer, Int(n), Slice(at, at + 1))
  }

  function OpTok(k: TokenKind, s: string, at: nat): Token {
    Token(k, Text(s), Slice(at, at + 1))
  }

  function Lit(n: nat): Node {
    AstNodes.IntegerLiteral(Int(n))
  }

  /** Texts such as `2+3*4`: digit, operator, digit, operator, digit. */
  lemma LexFive(text: string, k1: TokenKind, i1: nat, k2: TokenKind, i2: nat)
    requires |text| == 5 && i1 < 6 && i2 < 6 && Defs[i1].kind == k1 && Defs[i2].kind == k2
    requires IsDigit(text[0]) && IsDigit(text[2]) && IsDigit(text[4])
    requires [text[1]] == Defs[i1].pattern.lit && [text[3]] == Defs[i2].pattern.lit
    ensures LexText(text) == Ok([IntTok(DigitValue(text[0]), 0), OpTok(k1, [text[1]], 1), IntTok(DigitValue(text[2]), 2),
                                 OpTok(k2, [text[3]], 3), IntTok(DigitValue(text[4]), 4)])
  {
    var tokens := [IntTok(DigitValue(text[0]), 0), OpTok(k1, [text[1]], 1), IntTok(DigitValue(text[2]), 2),
                   OpTok(k2, [text[3]], 3), IntTok(DigitValue(text[4]), 4)];
    forall i | 0 <= i < 5 ensures LongestMatch(text, i) == Some(tokens[i]) && tokens[i].slice.stop == i + 1 {
      if i == 1 {
        LongestMatchPunctuation(text, 1, i1);
      } else if i == 3 {
        LongestMatchPunctuation(text, 3, i2);
      } else {
        LexOneDigit(text, i);
      }
    }
    LexSingles(text, tokens, 0);
  }

  // Each whole-text lemma below takes its text as a parameter pinned by `requires`: with the
  // literal written into the call, the verifier would unroll the lexer and parser on it.

  /** `2+3*4`: multiplication binds tighter, so it is `2+(3*4)`. */
  lemma TimesBindsTighter(text: string)
    requires text == "2+3*4"
    ensures ParseText(text)
      == Ok(AstNodes.BinaryOpExpression(Lit(2), Text("+"), AstNodes.BinaryOpExpression(Lit(3), Text("*"), Lit(4))))
  {
    LexFive(text, Plus, 0, Asterisk, 2);
    PrecedenceTable(OpTok(Plus, "+", 1));
    PrecedenceTable(OpTok(Asterisk, "*", 3));
    TwoOperators(IntTok(2, 0), OpTok(Plus, "+", 1), IntTok(3, 2), OpTok(Asterisk, "*", 3), IntTok(4, 4));
  }

  /** `8-3-2`: operators of one precedence associate to the left, so it is `(8-3)-2`. */
  lemma MinusAssociatesLeft(text: string)
    requires text == "8-3-2"
    ensures ParseText(text)
      == Ok(AstNodes.BinaryOpExpression(AstNodes.BinaryOpExpression(Lit(8), Text("-"), Lit(3)), Text("-"), Lit(2)))
  {
    LexFive(text, Minus, 1, Minus, 1);
    PrecedenceTable(OpTok(Minus, "-", 1));
    PrecedenceTable(OpTok(Minus, "-", 3));
    TwoOperators(IntTok(8, 0), OpTok(Minus, "-", 1), IntTok(3, 2), OpTok(Minus, "-", 3), IntTok(2, 4));
  }

  /** `6/3*2`: division and multiplication share a precedence, so it is `(6/3)*2`. */
  lemma DivideThenMultiply(text: string)
    requires text == "6/3*2"
    ensures ParseText(text)
      == Ok(AstNodes.BinaryOpExpression(AstNodes.BinaryOpExpression(Lit(6), Text("/"), Lit(3)), Text("*"), Lit(2)))
  {
    LexFive(text, Slash, 3, Asterisk, 2);
    PrecedenceTable(OpTok(Slash, "/", 1));
    PrecedenceTable(OpTok(Asterisk, "*", 3));
    TwoOperators(IntTok(6, 0), OpTok(Slash, "/", 1), IntTok(3, 2), OpTok(Asterisk, "*", 3), IntTok(2, 4));
  }

  /** `-5+3`: the sign applies to the whole expression after it, `-(5+3)`. */
  lemma SignCoversSum(text: string)
    requires text == "-5+3"
    ensures ParseText(text)
      == Ok(AstNodes.UnaryOpExpression(Text("-"), AstNodes.BinaryOpExpression(Lit(5), Text("+"), Lit(3))))
  {
    var tokens := [OpTok(Minus, "-", 0), IntTok(5, 1), OpTok(Plus, "+", 2), IntTok(3, 3)];
    forall i | 0 <= i < 4 ensures LongestMatch(text, i) == Some(tokens[i]) && tokens[i].slice.stop == i + 1 {
      if i == 0 {
        LongestMatchPunctuation(text, 0, 1);
      } else if i == 2 {
        LongestMatchPunctuation(text, 2, 0);
      } else {
        LexOneDigit(text, i);
      }
    }
    LexSingles(text, tokens, 0);
    PrecedenceTable(OpTok(Plus, "+", 2));
    UnaryTakesWholeExpression(OpTok(Minus, "-", 0), IntTok(5, 1), OpTok(Plus, "+", 2), IntTok(3, 3));
  }

  /** `(7)`: the brackets leave no node behind. */
  lemma BracketedSeven(text: string)
    requires text == "(7)"
    ensures ParseText(text) == Ok(Lit(7))
  {
    var tokens := [OpTok(LeftParen, "(", 0), IntTok(7, 1), OpTok(RightParen, ")", 2)];
    forall i | 0 <= i < 3 ensures LongestMatch(text, i) == Some(tokens[i]) && tokens[i].slice.stop == i + 1 {
      if i == 0 {
        LongestMatchPunctuation(text, 0, 4);
      } else if i == 2 {
        LongestMatchPunctuation(text, 2, 5);
      } else {
        LexOneDigit(text, 1);
      }
    }
    LexSingles(text, tokens, 0);
    PrecedenceTable(OpTok(RightParen, ")", 2));
    BracketIsTransparent(OpTok(LeftParen, "(", 0), IntTok(7, 1), OpTok(RightParen, ")", 2));
  }

  /** A blank with no blank after it is a whitespace token of one character. */
  lemma LexOneBlank(text: string, start: nat)
    requires start < |text| && InClass(Blanks, text[start])
    requires start + 1 < |text| ==> !InClass(Blanks, text[start + 1])
    ensures LongestMatch(text, start) == Some(Token(Whitespace, Text([text[start]]), Slice(start, start + 1)))
  {
    LongestMatchBlanks(text, start);
    assert text[start..start + 1] == [text[start]];
  }

  /** `1 + 2`: whitespace tokens reach the parser, the blank after `1` is not an operator,
      and the result is `1` alone. */
  lemma BlankEndsExpression(text: string)
    requires text == "1 + 2"
    ensures ParseText(text) == Ok(Lit(1))
  {
    var tokens := [IntTok(1, 0), OpTok(Whitespace, " ", 1), OpTok(Plus, "+", 2), OpTok(Whitespace, " ", 3), IntTok(2, 4)];
    forall i | 0 <= i < 5 ensures LongestMatch(text, i) == Some(tokens[i]) && tokens[i].slice.stop == i + 1 {
      if i == 1 || i == 3 {
        LexOneBlank(text, i);
      } else if i == 2 {
        LongestMatchPunctuation(text, 2, 0);
      } else {
        LexOneDigit(text, i);
      }
    }
    LexSingles(text, tokens, 0);
    PrecedenceTable(OpTok(Whitespace, " ", 1));
    TrailingTokensIgnored(tokens);
  }

  /** `(1+2`: the parse fails on the `2`, not at the end of the input (see
      `ParsingProperties.UnclosedBracket`). */
  lemma UnclosedBracketText(text: string)
    requires text == "(1+2"
    ensures ParseText(text) == Err(ParseFailure(NoPrimary(IntTok(2, 3))))
  {
    var tokens := [OpTok(LeftParen, "(", 0), IntTok(1, 1), OpTok(Plus, "+", 2), IntTok(2, 3)];
    forall i | 0 <= i < 4 ensures LongestMatch(text, i) == Some(tokens[i]) && tokens[i].slice.stop == i + 1 {
      if i == 0 {
        LongestMatchPunctuation(text, 0, 4);
      } else if i == 2 {
        LongestMatchPunctuation(text, 2, 0);
      } else {
        LexOneDigit(text, i);
      }
    }
    LexSingles(text, tokens, 0);
    PrecedenceTable(OpTok(Plus, "+", 2));
    UnclosedBracket(OpTok(LeftParen, "(", 0), IntTok(1, 1), OpTok(Plus, "+", 2), IntTok(2, 3));
  }

  /** `+*2`: the error names the `+` at offset 0, because the failed unary attempt is undone
      before the error is raised. */
  lemma SignBeforeOperator(text: string)
    requires text == "+*2"
    ensures ParseText(text) == Err(ParseFailure(NoPrimary(OpTok(Plus, "+", 0))))
  {
    var tokens := [OpTok(Plus, "+", 0), OpTok(Asterisk, "*", 1), IntTok(2, 2)];
    forall i | 0 <= i < 3 ensures LongestMatch(text, i) == Some(tokens[i]) && tokens[i].slice.stop == i + 1 {
      if i == 0 {
        LongestMatchPunctuation(text, 0, 0);
      } else if i == 1 {
        LongestMatchPunctuation(text, 1, 2);
      } else {
        LexOneDigit(text, 2);
      }
    }
    LexSingles(text, tokens, 0);
    SignWithoutOperand(tokens);
  }

  /** The string that error prints: the span of the `2` (offset 3 to 3), then the message
      naming the kind of the `2`. */
  lemma UnclosedBracketMessage(e: ParseError)
    requires e == NoPrimary(IntTok(2, 3))
    ensures e.Message() == "Expected integer, unary operator or bracket. Got TokenType.integer"
    ensures ErrorString(e) == "3-3: " + e.Message()
  {
    assert TypeRepr(Integer) == "TokenType.integer";
    assert IntToString(3) == "3";
    assert "3" + "-" + "3" + ": " == "3-3: ";
  }
}
