# Expression front end: lexer, token stack, parser, AST

This project models the front end of a small arithmetic-expression compiler and proves
properties of the model. The front end turns source text into tokens, then tokens into an
expression tree.

- **Lexer** (`lexing.py`, module `Lexing`). There is a fixed, ordered table of eight token
  definitions: `+ - * / ( )`, digit runs read with `int`, and runs of spaces and tabs.
  - `first_token` scans the table. It keeps the longest match and, among equally long
    matches, the earliest definition.
  - `lex` yields tokens one after another until the text is used up and keeps the whitespace
    tokens. It fails at a character that no definition matches.
  - The lexer is modelled twice. The functions `LongestMatch` and `LexText` are the
    specification. The methods `FirstToken` and `Lex` are the loops the source runs, proved
    equal to them.
- **Parser** (`parsing.py`, module `Parsing`). The parser works on a `TokenStack`: a cursor
  over the token list plus a stack of saved cursors.
  - The rules are integer literal, unary operator, bracket, the primary expression with
    ordered speculative attempts (`try_to_parse`), and precedence climbing for binary
    operators.
  - Every rule exists twice. A pure function over a `StackState` (the cursor and the saved
    cursors) is the specification. An imperative method drives the `TokenStack` object the way
    the source does.
  - Each method's postcondition states that its result and the object's new state are what the
    function gives for the old state.
  - `ParseError` carries the situation that raised it, plus the tokens it names. Its string
    form is `ErrorString`.
- **AST** (`astnodes.py`, module `AstNodes`). There are three node types, and `to_dict`
  describes a tree as nested dictionaries.
- **Composition.** `ParseText` and `ParseExpression` are `parse_expression` (compiler.py):
  lex, wrap the tokens in a fresh `TokenStack`, and parse one `Expression`.
- **Properties.** Modules `ParsingProperties` and `Examples` state what the parser does on
  inputs its rules are about: precedence and associativity, the reach of a unary sign,
  brackets, whitespace, and errors. The `Examples` lemmas cover whole texts, lexed and parsed.

Where the code does something a reader might not expect, the model follows the code:

- **A unary sign covers everything after it.** One might expect a sign to bind tighter than
  any binary operator. But `Expression` is rebound three times in parsing.py, and the unary and
  bracket rules use the last binding, `BinaryOpExpression` (parsing.py:210). So `-5+3` parses
  as `-(5+3)`, not as `(-5)+3` (`Examples.SignCoversSum`).
- **Whitespace reaches the parser.** One might expect whitespace tokens to be dropped before
  parsing. But `lex` is `lex_raw` (lexing.py:169), and
  `parse_expression` does not filter. Climbing stops at the first whitespace token, so
  `1 + 2` parses as `1` (`Examples.BlankEndsExpression`).
- **Nothing checks that the input is used up.** There is no "expected end of input" error;
  trailing tokens are ignored
  (`ParsingProperties.TrailingTokensIgnored`).
- **A failed alternative does not always restore the cursor it saved.** One might expect each
  attempt of `PrimaryExpression` to leave the cursor where it was when it fails.
  - `try_to_parse` pops its saved cursor only on failure. Cursors saved by alternatives that
    succeeded stay on the stack, and a later restore pops the top entry, whichever it is.
  - For `(1+2` the bracket alternative fails at the end of the input. Its restore then moves
    the cursor to the `2`. The error is "Expected integer, unary operator or bracket" at
    offset 3, not an end-of-input error (`ParsingProperties.UnclosedBracket`,
    `Examples.UnclosedBracketText`).
- **The error for `+*2` names the `+`.** One might expect it to name the `*`, the token that
  starts no operand. The unary attempt is undone before the error is
  raised, so the error names the `+` at offset 0 rather than the `*`
  (`Examples.SignBeforeOperator`).
- **The right operand is taken from `.node`.** parsing.py:191 stores the `PrimaryExpression`
  parser object itself as the right operand, so the tree holds a parser object and `to_dict`
  later fails on it. The model stores that object's `.node`, as every other rule does
  (parsing.py:185, 111, 127).

Termination of the parser is proved from the code as written, with no fuel. The measure is the
number of tokens right of the cursor, paired with a rank per rule. `Parsing.Extends` states
everything a rule can do to the stack state, and every rule function guarantees it. The cursor
never moves back past where the rule started. The saved stack keeps its old entries, and every
entry added above them is at least the old cursor. So even a restore that pops a leftover entry
lands at or after the rule's starting cursor.

## Model

| member | source | states |
|---|---|---|
| Decimal.NatToString | parsing.py:34 | the decimal spelling `format` prints for an offset is non-empty, all digits, and has no leading zero except in `0` itself |
| Decimal.DecimalValue | lexing.py:49 | no contract; `int` on a digit run, whose properties are stated by `Decimal.DecimalOfNatToString` and `Lexing.LongestMatchDigits` |
| Decimal.IntToString | parsing.py:34 | `str` of an integer: the natural spelling when non-negative, a `-` before the magnitude when negative |
| Decimal.DecimalOfNatToString | lexing.py:49 | reading the decimal spelling of `n` with `int` gives `n` back |
| Lexing.KindIndex | lexing.py:37-56 | each of the eight kinds has exactly one definition in the table, at a fixed position |
| Lexing.Defs | lexing.py:37-51 | no contract; the constant table `_defs` in its order, whose properties are stated by `Lexing.KindIndex` and `Lexing.DefsWellFormed` |
| Lexing.DefsWellFormed | lexing.py:37-51 | every literal in the table is non-empty and `int` is applied only to the digit pattern |
| Lexing.RunLength | lexing.py:95-98 | a `[class]+` match consumes the maximal run: every character before the length is in the class, and the next one is not |
| Lexing.MatchText | lexing.py:88-98 | a literal matches exactly when the rest of the text starts with it, and then the match is the literal; a pattern matches exactly when the rest starts with a character of its class, and then the match is the non-empty maximal run; the match is always a prefix of `text[start:]` |
| Lexing.MatchConvertible | lexing.py:105-106 | whatever the integer definition matches is all digits, so `int` does not fail, and every match is non-empty |
| Lexing.FilterValue | lexing.py:105-106 | no contract; the value filter (none, or `int`), whose use is stated by `Lexing.LongestMatchSpec`, `Lexing.LongestMatchDigits` and `Lexing.LongestMatchBlanks` |
| Lexing.MakeToken | lexing.py:107 | no contract; `Token(type_, value, slice(start, start + len(token_text)))`, whose properties are stated by `Lexing.LongestMatchSpec` |
| Lexing.ScanStep | lexing.py:86-107 | no contract; one pass of the loop of `first_token`, whose properties are stated by `Lexing.ScanStepChooses`, `Lexing.ScanStepKeeps` and `Lexing.ScanStepReplaces` |
| Lexing.ScanDefs | lexing.py:86-107 | no contract; the loop of `first_token` over the first `n` definitions, whose properties are stated by `Lexing.ScanDefsChooses` |
| Lexing.ScanStepChooses | lexing.py:100-107 | one pass of the loop keeps the scan invariant: nothing chosen iff nothing matched so far, otherwise the longest, earliest match |
| Lexing.ScanStepKeeps | lexing.py:101-102 | a definition that does not match, or whose match is not strictly longer, leaves the current token in place |
| Lexing.ScanStepReplaces | lexing.py:104-107 | a strictly longer match replaces the current token, with the value filtered and the slice taken from the raw text |
| Lexing.ScanDefsChooses | lexing.py:86-107 | after the loop has visited the first `n` definitions, it holds the longest match among them and the earliest of equally long ones, or nothing if none matched |
| Lexing.LongestMatch | lexing.py:104-107 | a token found at `start` has a slice that starts at `start`, is non-empty and lies inside the text |
| Lexing.LongestMatchSpec | lexing.py:76-109 | `first_token` is `None` iff no definition matches; otherwise its token comes from a matching definition, no other match is longer, an earlier one is strictly shorter, and its slice is `[start, start + len(raw match))` |
| Lexing.FirstToken | lexing.py:76-109 | the loop over the table, updating `token` and `token_text`, returns `LongestMatch` |
| Lexing.LongestMatchNoneIff | lexing.py:83-109 | at an offset inside the text, nothing matches exactly when the character there is not one of `+-*/()`, a digit, a space or a tab |
| Lexing.LongestMatchCovers | lexing.py:104-107 | every character a token covers is recognised |
| Lexing.NoMatchWithoutStart | lexing.py:90-98 | a definition whose literal or class cannot begin with the character at `start` does not match there |
| Lexing.LongestMatchUnique | lexing.py:100-107 | when only one definition matches, `first_token` returns its token |
| Lexing.LongestMatchPunctuation | lexing.py:90-93 | a punctuation definition wins where the text starts with its literal; the value is the literal and the token covers one character |
| Lexing.LongestMatchDigits | lexing.py:95-107 | at a digit, the integer token covers the maximal digit run and its value is that run's number |
| Lexing.LongestMatchBlanks | lexing.py:95-107 | at a space or tab, the whitespace token covers the maximal blank run and keeps it as its value |
| Lexing.LexFrom | lexing.py:137-145 | no contract; `lex_raw` from offset `start`, whose properties are stated by `Lexing.LexFromTiles` and `Lexing.LexFromSucceedsIff` |
| Lexing.LexText | lexing.py:169 | no contract; `lex`, which is `lex_raw` from 0, whose properties are stated by `Lexing.LexTiles`, `Lexing.LexSucceedsIff`, `Lexing.LexNatToString` and `Lexing.Lex` |
| Lexing.Lex | lexing.py:137-145 | the `while` loop of `lex_raw`, collecting what it yields, returns `LexText` |
| Lexing.LexFromTiles | lexing.py:137-145 | the tokens lexed from `start` tile `text[start:]`: each non-empty token starts where the previous one stopped, and the last stops at the end |
| Lexing.LexTiles | lexing.py:137-145 | a successful `lex` tiles the text from 0 to its length; empty text gives no tokens |
| Lexing.LexFromSucceedsIff | lexing.py:143-145 | lexing from `start` succeeds iff every character from `start` on is recognised |
| Lexing.LexSucceedsIff | lexing.py:143-145 | `lex` fails exactly when the text holds an unrecognised character |
| Lexing.LexNatToString | lexing.py:121 | lexing a decimal number gives one integer token with that number as value over the whole text (`68` is one token, not two) |
| AstNodes.ToDict | astnodes.py:22-48 | the description is a dictionary tagged with the node's class name, with exactly the node's fields as its other keys; the operator or value is stored as is, and `lhs` and `rhs` hold the descriptions of the left and right child |
| AstNodes.DescribeInjective | astnodes.py:24 | distinct token values get distinct descriptions |
| AstNodes.ToDictInjective | astnodes.py:22-48 | `to_dict` loses nothing: equal descriptions come from equal trees |
| Parsing.ErrorString | parsing.py:31-34 | the string is the message alone exactly when no token is attached, and always ends with the message |
| Parsing.ErrorStringStartsWithSpan | parsing.py:34 | with a token attached, the string starts with the first token's start offset in decimal, followed by `-` |
| Parsing.ErrorStringSpan | parsing.py:34 | with tokens attached, the string is the first token's start and the last token's stop minus one, in decimal and read back as those numbers, joined by `-`, then `: ` and the message |
| Parsing.TypeRepr | lexing.py:31-32 | no contract; how a token definition prints inside a message, `TokenType.<name>`, stated on an example by `Examples.UnclosedBracketMessage` |
| Parsing.Complaint.Message | parsing.py:48-160 | no contract; the four message texts of parsing.py:48, 78, 110 and 160, one per situation, stated on an example by `Examples.UnclosedBracketMessage` |
| Parsing.PeekAt | parsing.py:44-48 | no contract; `peek` on a state, whose properties are stated by `Parsing.PopAt` and `Parsing.TokenStack.Peek` |
| Parsing.PushAt | parsing.py:55-56 | no contract; `push_cursor` on a state, whose properties are stated by `Parsing.RestoreExtends` and `Parsing.TokenStack.PushCursor` |
| Parsing.RestoreAt | parsing.py:58-59 | no contract; `pop_cursor` on a state, whose properties are stated by `Parsing.RestoreExtends`, `ParsingProperties.TryRuleFailureRestores` and `Parsing.TokenStack.PopCursor` |
| Parsing.PopAt | parsing.py:50-53 | `pop` returns what `peek` returns; it moves the cursor by one when there is a token and leaves it at the end of input; it never touches the saved stack |
| Parsing.RestoreExtends | parsing.py:141-144 | after `push_cursor` and any rule, `pop_cursor` finds an entry, and the state it restores is no earlier than the state before the push |
| Parsing.PopExpectingAt | parsing.py:75-79 | at the end of input, the end-of-input error with nothing changed; otherwise the cursor advances, and the result is the token when its kind matches and otherwise an error carrying it |
| Parsing.PrecedenceTable | parsing.py:179-182 | `+` and `-` have precedence 20, `*` and `/` have 30, and no other text is an operator |
| Parsing.PrecedenceOf | parsing.py:204-206 | no contract; `precedence_` on an operator token, whose values are stated by `Parsing.PrecedenceTable` and `Parsing.Precedence` |
| Parsing.NextIsBinaryAt | parsing.py:197-202 | no contract; `next_is_binary_` on a state, whose behaviour is stated by `Parsing.NextIsBinary` |
| Parsing.ParseIntegerLiteral | parsing.py:91-94 | the rule leaves a state that extends the one it started from |
| Parsing.ParseUnary | parsing.py:106-112 | the rule leaves a state that extends the one it started from |
| Parsing.ParseBracketed | parsing.py:124-129 | the rule leaves a state that extends the one it started from |
| Parsing.ApplyRule | parsing.py:142 | constructing any of the three rule classes leaves a state that extends the one it started from |
| Parsing.TryRule | parsing.py:138-145 | `try_to_parse` leaves a state that extends the one it started from, on success and on failure |
| Parsing.ParsePrimary | parsing.py:147-162 | a failed primary's error names the token under the cursor, or is the end-of-input error when no token is left |
| Parsing.ParseBinary | parsing.py:184-186 | a successful expression stops only where the next token is not an operator |
| Parsing.ClimbIteration | parsing.py:189-194 | one pass of the outer climbing loop consumes at least the operator token |
| Parsing.Climb | parsing.py:188-195 | the outer loop consumes tokens whenever it runs; when it succeeds, the next token is not an operator of at least the minimum precedence |
| Parsing.ClimbRhs | parsing.py:192-193 | when the inner loop succeeds, the next token is not an operator binding tighter than the current one |
| Parsing.TokenStack.constructor | parsing.py:39-42 | a new stack holds the given tokens, cursor 0 and no saved cursors |
| Parsing.TokenStack.Peek | parsing.py:44-48 | the token under the cursor, or the end-of-input error at or past the end; nothing changes |
| Parsing.TokenStack.Pop | parsing.py:50-53 | returns what `peek` returns and moves the cursor by one only when there was a token; the saved stack and the tokens do not change |
| Parsing.TokenStack.PushCursor | parsing.py:55-56 | appends the cursor to the saved stack and changes nothing else |
| Parsing.TokenStack.PopCursor | parsing.py:58-59 | the cursor becomes the most recently saved value, which is removed |
| Parsing.PopExpecting | parsing.py:75-79 | result and new state are those of `PopExpectingAt` on the old state |
| Parsing.IntegerLiteralExpression | parsing.py:91-94 | result and new state are those of `ParseIntegerLiteral` on the old state |
| Parsing.UnaryOpExpression | parsing.py:106-112 | result and new state are those of `ParseUnary` on the old state |
| Parsing.BracketedExpression | parsing.py:124-129 | result and new state are those of `ParseBracketed` on the old state |
| Parsing.RunRule | parsing.py:142 | result and new state are those of `ApplyRule` on the old state |
| Parsing.TryToParse | parsing.py:138-145 | result and new state are those of `TryRule` on the old state |
| Parsing.PrimaryExpression | parsing.py:147-162 | result and new state are those of `ParsePrimary` on the old state |
| Parsing.BinaryOpExpression | parsing.py:184-186 | result and new state are those of `ParseBinary` on the old state |
| Parsing.NextIsBinary | parsing.py:197-202 | true exactly when a token is left and its value is a key of the precedence table |
| Parsing.Precedence | parsing.py:204-206 | the table's precedence of the given token, or of the token under the cursor when none is given |
| Parsing.ParseExpressionTail | parsing.py:188-195 | the outer `while` loop of `parse_expression_` gives the result and new state of `Climb` on the old state |
| Parsing.ClimbOperand | parsing.py:192-193 | the inner `while` loop gives the result and new state of `ClimbRhs` on the old state |
| Parsing.ParseExpression | compiler.py:12-13 | `Expression(TokenStack(lex(text))).node` by methods is `ParseText(text)` |
| Parsing.ParseText | compiler.py:12-13 | no contract; `parse_expression` as a function, whose behaviour on whole texts is stated by the `Examples` lemmas and which `Parsing.ParseExpression` computes by methods |
| ParsingProperties.TryRuleFailureRestores | parsing.py:143-145 | a failed rule that leaves no saved entry of its own makes `try_to_parse` restore exactly the state it started from |
| ParsingProperties.TryRuleSuccessKeepsEntry | parsing.py:140-142 | on success the node is returned and the cursor pushed by `try_to_parse` stays on the stack at the level where it was pushed |
| ParsingProperties.PrimaryOnInteger | parsing.py:148-150 | an integer token is a primary on its own: one token is consumed and its saved cursor is left on the stack |
| ParsingProperties.IntegerAlternativeFails | parsing.py:91-94 | where there is no integer token, the integer attempt fails and the state is as before |
| ParsingProperties.UnaryAlternativeFails | parsing.py:106-110 | where there is no `+` or `-`, the unary attempt fails and the state is as before |
| ParsingProperties.BracketAlternativeFails | parsing.py:124-126 | where there is no `(`, the bracket attempt fails and the state is as before |
| ParsingProperties.PrimaryByUnary | parsing.py:106-112 | a sign followed by a successful expression gives the unary node over that whole expression |
| ParsingProperties.PrimaryByBracket | parsing.py:124-129 | `(`, an expression, then `)` gives the inner node, with the cursor past the `)` |
| ParsingProperties.PrimaryByUnclosedBracket | parsing.py:138-145 | a bracket whose expression runs to the end fails, and the restore pops whatever is on top of the stack then |
| ParsingProperties.PrimaryAtEnd | parsing.py:147-162 | at the end of input, all three alternatives fail and the primary gives the end-of-input error with the state unchanged |
| ParsingProperties.PrimaryRejects | parsing.py:160-162 | a token that starts no alternative gives an error naming it, with the state unchanged |
| ParsingProperties.ClimbStops | parsing.py:189 | the outer loop returns its left operand unchanged where the next token is not an operator of enough precedence |
| ParsingProperties.ClimbRhsStops | parsing.py:192 | the inner loop returns its operand unchanged where the next token does not bind tighter |
| ParsingProperties.IterationOnLastOperand | parsing.py:189-194 | an operator and a final integer fold into one binary node and use up the input |
| ParsingProperties.BinaryOnLastThree | parsing.py:184-195 | `a o b` at the end of the input is one binary node |
| ParsingProperties.TwoOperators | parsing.py:188-195 | in `a o1 b o2 c`, `b` goes to `o2` only when `o2` binds strictly tighter; otherwise the two associate to the left; all five tokens are consumed |
| ParsingProperties.RightOperandClimbs | parsing.py:192-193 | a tighter second operator takes the middle operand into its own node |
| ParsingProperties.LeftOperandFolds | parsing.py:189-194 | a second operator that does not bind tighter folds the first node as its left operand |
| ParsingProperties.UnaryTakesWholeExpression | parsing.py:106-112 | `-a o b` is the sign applied to `a o b`, for every operator `o` |
| ParsingProperties.BracketIsTransparent | parsing.py:124-129 | `( a )` gives the integer node; brackets add no node |
| ParsingProperties.UnclosedBracket | parsing.py:138-145 | `( a o b` fails with an error naming `b`, at cursor 3, because the restore pops the entry left for `b` |
| ParsingProperties.SignWithoutOperand | parsing.py:106-162 | a sign followed by a token that starts no primary gives an error naming the sign, with the state back at the start |
| ParsingProperties.TrailingTokensIgnored | parsing.py:197-202 | an integer followed by anything but an operator is the whole result; what follows is left unconsumed |
| Examples.LexOneDigit | lexing.py:95-107 | a digit not followed by a digit is a one-character integer token with the digit's value |
| Examples.LexOneBlank | lexing.py:95-107 | a blank not followed by a blank is a one-character whitespace token |
| Examples.LexSingles | lexing.py:137-145 | a text in which each character is a token of its own lexes to exactly those tokens |
| Examples.LexFive | lexing.py:137-145 | digit, operator, digit, operator, digit lexes to five one-character tokens |
| Examples.TimesBindsTighter | parsing.py:188-195 | `2+3*4` is `2+(3*4)` |
| Examples.MinusAssociatesLeft | parsing.py:188-195 | `8-3-2` is `(8-3)-2` |
| Examples.DivideThenMultiply | parsing.py:179-182 | `6/3*2` is `(6/3)*2` |
| Examples.SignCoversSum | parsing.py:111 | `-5+3` is `-(5+3)` |
| Examples.BracketedSeven | parsing.py:124-129 | `(7)` is the literal 7 |
| Examples.BlankEndsExpression | parsing.py:202 | `1 + 2` is `1`: the blank after `1` ends the expression |
| Examples.UnclosedBracketText | parsing.py:141-144 | `(1+2` fails with an error naming the `2` at offset 3 |
| Examples.SignBeforeOperator | parsing.py:160-162 | `+*2` fails with an error naming the `+` at offset 0 |
| Examples.UnclosedBracketMessage | parsing.py:31-34 | that error prints as `3-3: Expected integer, unary operator or bracket. Got TokenType.integer` |

## Left out

- Code generation, JIT execution and `to_value` (compiler.py, llvm-playground.py) are not part of this model. They drive a foreign LLVM library on float32 values.
- The notebook demonstration cells are not modelled as code. Some of them appear as example lemmas instead.
- `TokenDef.__repr__` and the namedtuple reprs are presentation only. Only the `TokenType.<name>` text that error messages embed is modelled (`Parsing.TypeRepr`).
- `lex` is a lazy generator in the source and a list here. It fails with `NoTokenAt(offset)` at the first unrecognised character, which is where the source dereferences the `None` that `first_token` yields.
- Regular expressions are modelled only as the two character-class runs the table uses. `int` is modelled on digit strings as a natural number.
- `ParseError(message, *tokens)` is modelled as a `Complaint`, which is the situation that raised it, plus its tokens. The message text is `Complaint.Message()`, built from the same pieces the source formats.
- Python's dynamic typing is not modelled. Token values are text or a natural number, and a node's operator is a token value.
- Parsing.TokenStack.PopCursor: popping an empty saved stack raises `IndexError` in the source and is a precondition here. The parser never violates it (`Parsing.RestoreExtends`).
- Parsing.PrecedenceOf: looking up a non-operator raises `KeyError` in the source and is a precondition here. The loops look up only tokens that `next_is_binary_` accepted.
- Parsing.ParseExpressionTail: the source puts the `PrimaryExpression` parser object into the tree (parsing.py:191). The model puts its `.node` there, so the model's trees are the intended ones and `to_dict` on them does not fail.
- Parsing.ParseIntegerLiteral, Parsing.ParseUnary, Parsing.ParseBracketed, Parsing.ApplyRule and Parsing.TryRule: their own contracts state only how the stack state may change. What each returns is stated by the lemmas in `ParsingProperties` and by the methods tied to them.
- Recursion depth and stack exhaustion on deeply nested input are not modelled.
