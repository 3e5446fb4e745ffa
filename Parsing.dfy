/** The parser of parsing.py.

    The source's rules are classes whose constructor runs `parse()` against a shared, mutable
    `TokenStack`. The model has two layers:
    - pure functions over the token list and a `StackState` (the cursor and the stack of saved
      cursors), one per rule, which say what each rule returns and how it leaves the stack;
    - the `TokenStack` class and one method per rule that drives it step by step as the source
      does; each method's postcondition is that its result and the new stack state are what the
      corresponding function gives for the old state.

    The grammar is the fixed mutually recursive set the source ends up with once the module
    name `Expression` has been bound for the last time (parsing.py:210): the operand of a unary
    operator and the body of a bracket are parsed by `BinaryOpExpression`. */
module Parsing {
  import opened Wrappers
  import opened Decimal
  import opened Lexing
  import AstNodes

  type Node = AstNodes.Node

  // ----- ParseError -----

  /** The four situations in which the parser raises `ParseError`; the message text is a
      function of the situation. */
  datatype Complaint =
    | AtEnd
    | WrongKind(expected: TokenKind, got: TokenKind)
    | NotAUnaryOperator(got: TokenKind)
    | NotAPrimary(got: TokenKind)
  {
    /** The message string the source builds for this situation. */
    function Message(): string {
      match this
      case AtEnd => "Unexpected end of input"
      case WrongKind(expected, got) =>
        "Unexpected token; was expecting " + TypeRepr(expected) + ", got " + TypeRepr(got)
      case NotAUnaryOperator(got) => "Expected unary operator, got " + TypeRepr(got)
      case NotAPrimary(got) => "Expected integer, unary operator or bracket. Got " + TypeRepr(got)
    }
  }

  /** `ParseError(message, *tokens)`. */
  datatype ParseError = ParseError(complaint: Complaint, tokens: seq<Token>)
  {
    function Message(): string {
      complaint.Message()
    }
  }

  /** How `'{0}'.format` prints a token definition. */
  function TypeRepr(k: TokenKind): string {
    "TokenType." + k.Name()
  }

  function EndOfInput(): ParseError {
    ParseError(AtEnd, [])
  }

  function UnexpectedType(expected: TokenKind, got: Token): ParseError {
    ParseError(WrongKind(expected, got.kind), [got])
  }

  function NotUnary(got: Token): ParseError {
    ParseError(NotAUnaryOperator(got.kind), [got])
  }

  function NoPrimary(got: Token): ParseError {
    ParseError(NotAPrimary(got.kind), [got])
  }

  /** `ParseError.__str__`: the message alone when no token is attached, otherwise prefixed by
      `start-(stop-1): ` taken from the first and the last token. */
  function ErrorString(e: ParseError): (s: string)
    ensures |e.tokens| == 0 <==> s == e.Message()
    ensures |s| >= |e.Message()| && s[|s| - |e.Message()|..] == e.Message()
  {
    if |e.tokens| == 0 then e.Message()
    else
      IntToString(e.tokens[0].slice.start) + "-" + IntToString(e.tokens[|e.tokens| - 1].slice.stop as int - 1)
        + ": " + e.Message()
  }

  /** With a token attached, the string starts with the first token's start offset, spelled in
      decimal and followed by `-`. */
  lemma ErrorStringStartsWithSpan(e: ParseError)
    requires |e.tokens| > 0
    ensures var p := NatToString(e.tokens[0].slice.start);
      var s := ErrorString(e);
      |s| > |p| && s[..|p|] == p && s[|p|] == '-' && DecimalValue(p) == e.tokens[0].slice.start
  {
    DecimalOfNatToString(e.tokens[0].slice.start);
  }

  /** With a token attached, the whole string: the first token's start and the last token's
      stop minus one, both in decimal and separated by `-`, then `: ` and the message. */
  lemma ErrorStringSpan(e: ParseError)
    requires |e.tokens| > 0 && e.tokens[|e.tokens| - 1].slice.stop >= 1
    ensures var first, last := e.tokens[0], e.tokens[|e.tokens| - 1];
      var p, q := NatToString(first.slice.start), NatToString(last.slice.stop - 1);
      && DecimalValue(p) == first.slice.start
      && DecimalValue(q) == last.slice.stop - 1
      && ErrorString(e) == p + "-" + q + ": " + e.Message()
  {
    DecimalOfNatToString(e.tokens[0].slice.start);
    DecimalOfNatToString(e.tokens[|e.tokens| - 1].slice.stop - 1);
  }

  // ----- The token stack, as values -----

  /** `TokenStack._cursor` and `TokenStack._cursor_stack`. */
  datatype StackState = StackState(cursor: nat, saved: seq<nat>)

  /** A rule's outcome: its node or the error it raised, and the stack state it left. */
  datatype Step<T> = Step(result: Result<T, ParseError>, state: StackState)

  /** The outcome of `try_to_parse`: the node (`None` on failure) and the stack state. */
  datatype Attempt = Attempt(node: Option<Node>, state: StackState)

  /** How many tokens are left to the right of the cursor; the measure every rule consumes. */
  function Remaining(tokens: seq<Token>, st: StackState): nat {
    if st.cursor <= |tokens| then |tokens| - st.cursor else 0
  }

  /** Everything a rule can do to the stack state: the cursor does not move back past where it
      was, the saved stack keeps its old entries, and every entry added above them is at least
      the old cursor. */
  predicate Extends(st0: StackState, st1: StackState) {
    && st0.cursor <= st1.cursor
    && |st0.saved| <= |st1.saved|
    && st1.saved[..|st0.saved|] == st0.saved
    && forall i :: |st0.saved| <= i < |st1.saved| ==> st0.cursor <= st1.saved[i]
  }

  lemma ExtendsTrans(a: StackState, b: StackState, c: StackState)
    requires Extends(a, b) && Extends(b, c)
    ensures Extends(a, c)
  {
    assert c.saved[..|a.saved|] == c.saved[..|b.saved|][..|a.saved|];
    forall i | |a.saved| <= i < |c.saved| ensures a.cursor <= c.saved[i] {
      if i < |b.saved| {
        assert c.saved[i] == c.saved[..|b.saved|][i];
      }
    }
  }

  /** `peek()`. */
  function PeekAt(tokens: seq<Token>, st: StackState): Result<Token, ParseError> {
    if st.cursor < |tokens| then Ok(tokens[st.cursor]) else Err(EndOfInput())
  }

  /** `pop()`: the token under the cursor, and the cursor one further on; at the end of input
      the end-of-input error and the cursor where it was. */
  function PopAt(tokens: seq<Token>, st: StackState): (r: Step<Token>)
    ensures r.result == PeekAt(tokens, st)
    ensures r.state.saved == st.saved
    ensures r.state.cursor == if st.cursor < |tokens| then st.cursor + 1 else st.cursor
  {
    if st.cursor < |tokens| then Step(Ok(tokens[st.cursor]), st.(cursor := st.cursor + 1))
    else Step(Err(EndOfInput()), st)
  }

  /** `push_cursor()`. */
  function PushAt(st: StackState): StackState {
    st.(saved := st.saved + [st.cursor])
  }

  /** `pop_cursor()`: the cursor becomes the top saved value, which is removed. */
  function RestoreAt(st: StackState): StackState
    requires |st.saved| > 0
  {
    StackState(st.saved[|st.saved| - 1], st.saved[..|st.saved| - 1])
  }

  /** Whatever a rule run after `push_cursor` does to the stack, `pop_cursor` afterwards finds
      an entry to pop, and the state it restores still extends the one before the push. */
  lemma RestoreExtends(st: StackState, after: StackState)
    requires Extends(PushAt(st), after)
    ensures Extends(st, after)
    ensures |after.saved| > 0 && Extends(st, RestoreAt(after))
  {
    var pushed := PushAt(st);
    var k := |st.saved|;
    assert after.saved[..k] == after.saved[..k + 1][..k];
    assert after.saved[k] == after.saved[..k + 1][k] == st.cursor;
    var restored := RestoreAt(after);
    assert restored.saved[..k] == after.saved[..k];
  }

  /** `pop_expecting(type_)`: pop a token, then fail if it is not of kind `kind`. There is a
      token to pop exactly when the cursor is before the end, and then the cursor has advanced
      whether or not the kind matched; a mismatch carries the popped token. */
  function PopExpectingAt(tokens: seq<Token>, kind: TokenKind, st: StackState): (r: Step<Token>)
    ensures r.state.saved == st.saved
    ensures st.cursor >= |tokens| ==> r == Step(Err(EndOfInput()), st)
    ensures st.cursor < |tokens| ==>
      && r.state.cursor == st.cursor + 1
      && (tokens[st.cursor].kind == kind ==> r.result == Ok(tokens[st.cursor]))
      && (tokens[st.cursor].kind != kind ==> r.result == Err(UnexpectedType(kind, tokens[st.cursor])))
  {
    var p := PopAt(tokens, st);
    if p.result.Err? then p
    else if p.result.value.kind != kind then Step(Err(UnexpectedType(kind, p.result.value)), p.state)
    else p
  }

  // ----- Operator precedence -----

  /** `BinaryOpExpression._op_precedence`. */
  const OpPrecedence: map<string, nat> := map["+" := 20, "-" := 20, "*" := 30, "/" := 30]

  /** A token value that is a key of the precedence table (integer values never are). */
  predicate IsBinaryOp(v: Value) {
    v.Text? && v.s in OpPrecedence
  }

  /** `precedence_(token)`: `+` and `-` bind with 20, `*` and `/` with 30. */
  function PrecedenceOf(t: Token): nat
    requires IsBinaryOp(t.value)
  {
    OpPrecedence[t.value.s]
  }

  /** The precedence table: `+` and `-` bind with 20, `*` and `/` with 30, and those four are
      the only operators. */
  lemma PrecedenceTable(t: Token)
    requires t.value.Text?
    ensures IsBinaryOp(t.value) <==> t.value.s in {"+", "-", "*", "/"}
    ensures IsBinaryOp(t.value) ==>
      && (PrecedenceOf(t) == 20 <==> t.value.s == "+" || t.value.s == "-")
      && (PrecedenceOf(t) == 30 <==> t.value.s == "*" || t.value.s == "/")
  {
  }

  /** `next_is_binary_()`: a token remains and its value is an operator. */
  predicate NextIsBinaryAt(tokens: seq<Token>, st: StackState) {
    st.cursor < |tokens| && IsBinaryOp(tokens[st.cursor].value)
  }

  /** The condition of the outer loop of `parse_expression_`. */
  predicate Continues(tokens: seq<Token>, st: StackState, minPrec: int) {
    NextIsBinaryAt(tokens, st) && PrecedenceOf(tokens[st.cursor]) >= minPrec
  }

  /** The condition of the inner loop of `parse_expression_`. */
  predicate BindsTighter(tokens: seq<Token>, st: StackState, opPrec: int) {
    NextIsBinaryAt(tokens, st) && PrecedenceOf(tokens[st.cursor]) > opPrec
  }

  // ----- The rules, as functions -----

  /** The rule classes that `try_to_parse` is handed. */
  datatype Rule = IntegerLiteralRule | UnaryOpRule | BracketedRule

  /** `IntegerLiteralExpression.parse`. */
  function ParseIntegerLiteral(tokens: seq<Token>, st: StackState): (r: Step<Node>)
    ensures Extends(st, r.state)
  {
    var p := PopExpectingAt(tokens, Integer, st);
    if p.result.Err? then Step(Err(p.result.error), p.state)
    else Step(Ok(AstNodes.IntegerLiteral(p.result.value.value)), p.state)
  }

  /** `UnaryOpExpression.parse`: pop a `+` or `-`, then parse a whole binary expression. */
  function ParseUnary(tokens: seq<Token>, st: StackState): (r: Step<Node>)
    ensures Extends(st, r.state)
    decreases Remaining(tokens, st), 0
  {
    var p := PopAt(tokens, st);
    if p.result.Err? then Step(Err(p.result.error), p.state)
    else
      var op := p.result.value;
      if op.kind != Plus && op.kind != Minus then Step(Err(NotUnary(op)), p.state)
      else
        var e := ParseBinary(tokens, p.state);
        ExtendsTrans(st, p.state, e.state);
        if e.result.Err? then e
        else Step(Ok(AstNodes.UnaryOpExpression(op.value, e.result.value)), e.state)
  }

  /** `BracketedExpression.parse`: `(`, a whole binary expression, `)`; the inner node is
      returned with no wrapper. */
  function ParseBracketed(tokens: seq<Token>, st: StackState): (r: Step<Node>)
    ensures Extends(st, r.state)
    decreases Remaining(tokens, st), 0
  {
    var l := PopExpectingAt(tokens, LeftParen, st);
    if l.result.Err? then Step(Err(l.result.error), l.state)
    else
      var e := ParseBinary(tokens, l.state);
      ExtendsTrans(st, l.state, e.state);
      if e.result.Err? then e
      else
        var rp := PopExpectingAt(tokens, RightParen, e.state);
        ExtendsTrans(st, e.state, rp.state);
        if rp.result.Err? then Step(Err(rp.result.error), rp.state)
        else Step(Ok(e.result.value), rp.state)
  }

  /** `parser(self.token_stack).node` for the rule class `try_to_parse` is handed. */
  function ApplyRule(tokens: seq<Token>, rule: Rule, st: StackState): (r: Step<Node>)
    ensures Extends(st, r.state)
    decreases Remaining(tokens, st), 1
  {
    match rule
    case IntegerLiteralRule => ParseIntegerLiteral(tokens, st)
    case UnaryOpRule => ParseUnary(tokens, st)
    case BracketedRule => ParseBracketed(tokens, st)
  }

  /** `try_to_parse(parser)`: push the cursor, run the rule; on success keep the node and
      leave the pushed entry on the stack; on failure pop the top of the stack into the cursor
      (which is the pushed entry only if the rule left nothing above it). */
  function TryRule(tokens: seq<Token>, rule: Rule, st: StackState): (a: Attempt)
    ensures Extends(st, a.state)
    decreases Remaining(tokens, st), 2
  {
    var r := ApplyRule(tokens, rule, PushAt(st));
    RestoreExtends(st, r.state);
    if r.result.Ok? then Attempt(Some(r.result.value), r.state)
    else Attempt(None, RestoreAt(r.state))
  }

  /** `PrimaryExpression.parse`: integer, then unary, then bracket; the first success wins.
      When all three fail, the error names the token under the cursor, or is the end-of-input
      error when none is left. */
  function ParsePrimary(tokens: seq<Token>, st: StackState): (r: Step<Node>)
    ensures Extends(st, r.state)
    ensures r.result.Err? ==>
      r.result.error == if r.state.cursor < |tokens| then NoPrimary(tokens[r.state.cursor]) else EndOfInput()
    decreases Remaining(tokens, st), 3
  {
    var a1 := TryRule(tokens, IntegerLiteralRule, st);
    if a1.node.Some? then Step(Ok(a1.node.value), a1.state)
    else
      var a2 := TryRule(tokens, UnaryOpRule, a1.state);
      ExtendsTrans(st, a1.state, a2.state);
      if a2.node.Some? then Step(Ok(a2.node.value), a2.state)
      else
        var a3 := TryRule(tokens, BracketedRule, a2.state);
        ExtendsTrans(st, a2.state, a3.state);
        if a3.node.Some? then Step(Ok(a3.node.value), a3.state)
        else match PeekAt(tokens, a3.state)
          case Err(e) => Step(Err(e), a3.state)
          case Ok(t) => Step(Err(NoPrimary(t)), a3.state)
  }

  /** `BinaryOpExpression.parse`: a primary, then climbing from precedence 0. It only stops
      before a token that is not an operator, or at the end of input; nothing checks that the
      input is used up. */
  function ParseBinary(tokens: seq<Token>, st: StackState): (r: Step<Node>)
    ensures Extends(st, r.state)
    ensures r.result.Ok? ==> !NextIsBinaryAt(tokens, r.state)
    decreases Remaining(tokens, st), 7
  {
    var p := ParsePrimary(tokens, st);
    if p.result.Err? then p
    else
      var c := Climb(tokens, p.result.value, 0, p.state);
      ExtendsTrans(st, p.state, c.state);
      c
  }

  /** One pass of the outer loop of `parse_expression_`: pop the operator under the cursor,
      parse a primary as its right operand, let tighter operators climb that operand, and fold
      into a node whose left operand is `lhs`. */
  function ClimbIteration(tokens: seq<Token>, lhs: Node, st: StackState): (r: Step<Node>)
    requires NextIsBinaryAt(tokens, st)
    ensures Extends(st, r.state)
    ensures r.state.cursor > st.cursor
    decreases Remaining(tokens, st), 4
  {
    var op := tokens[st.cursor];
    var afterOp := st.(cursor := st.cursor + 1);
    var p := ParsePrimary(tokens, afterOp);
    ExtendsTrans(st, afterOp, p.state);
    if p.result.Err? then p
    else
      var q := ClimbRhs(tokens, p.result.value, PrecedenceOf(op), p.state);
      ExtendsTrans(st, p.state, q.state);
      if q.result.Err? then q
      else Step(Ok(AstNodes.BinaryOpExpression(lhs, op.value, q.result.value)), q.state)
  }

  /** The outer loop of `parse_expression_(lhs, min_precedence)`: passes of `ClimbIteration`
      while the next token is an operator of precedence at least `minPrec`. */
  function Climb(tokens: seq<Token>, lhs: Node, minPrec: int, st: StackState): (r: Step<Node>)
    ensures Extends(st, r.state)
    ensures Continues(tokens, st, minPrec) ==> r.state.cursor > st.cursor
    ensures r.result.Ok? ==> !Continues(tokens, r.state, minPrec)
    decreases Remaining(tokens, st), 5
  {
    if !Continues(tokens, st, minPrec) then Step(Ok(lhs), st)
    else
      var it := ClimbIteration(tokens, lhs, st);
      if it.result.Err? then it
      else
        var c := Climb(tokens, it.result.value, minPrec, it.state);
        ExtendsTrans(st, it.state, c.state);
        c
  }

  /** The inner loop of `parse_expression_`: while the next operator binds tighter than
      `opPrec`, climb the right operand from that operator's precedence. */
  function ClimbRhs(tokens: seq<Token>, rhs: Node, opPrec: int, st: StackState): (r: Step<Node>)
    ensures Extends(st, r.state)
    ensures r.result.Ok? ==> !BindsTighter(tokens, r.state, opPrec)
    decreases Remaining(tokens, st), 6
  {
    if !BindsTighter(tokens, st, opPrec) then Step(Ok(rhs), st)
    else
      var q := Climb(tokens, rhs, PrecedenceOf(tokens[st.cursor]), st);
      if q.result.Err? then q
      else
        var c := ClimbRhs(tokens, q.result.value, opPrec, q.state);
        ExtendsTrans(st, q.state, c.state);
        c
  }

  /** The start state of a fresh `TokenStack`. */
  const Fresh := StackState(0, [])

  /** Why `parse_expression(text)` can fail. */
  datatype Failure = LexFailure(lexError: LexError) | ParseFailure(parseError: ParseError)

  /** `parse_expression(text)` (compiler.py): `Expression(TokenStack(lex(text))).node`. */
  function ParseText(text: string): Result<Node, Failure> {
    match LexText(text)
    case Err(e) => Err(LexFailure(e))
    case Ok(tokens) =>
      var r := ParseBinary(tokens, Fresh);
      if r.result.Ok? then Ok(r.result.value) else Err(ParseFailure(r.result.error))
  }

  // ----- The token stack, as an object -----

  /** `TokenStack`: a cursor over a token list that never changes, and a stack of saved
      cursors. */
  class TokenStack {
    const tokens: seq<Token>
    var cursor: nat
    var cursorStack: seq<nat>

    ghost function State(): StackState
      reads this
    {
      StackState(cursor, cursorStack)
    }

    constructor (tokens: seq<Token>)
      ensures this.tokens == tokens && cursor == 0 && cursorStack == []
    {
      this.tokens := tokens;
      cursor := 0;
      cursorStack := [];
    }

    /** The token under the cursor; the end-of-input error at or past the end. */
    method Peek() returns (r: Result<Token, ParseError>)
      ensures cursor < |tokens| ==> r == Ok(tokens[cursor])
      ensures cursor >= |tokens| ==> r == Err(EndOfInput())
    {
      if cursor < |tokens| {
        r := Ok(tokens[cursor]);
      } else {
        r := Err(EndOfInput());
      }
    }

    /** `peek()`'s result; the cursor moves on by one only when there was a token. */
    method Pop() returns (r: Result<Token, ParseError>)
      modifies this`cursor
      ensures r == PeekAt(tokens, old(State()))
      ensures cursor == if old(cursor) < |tokens| then old(cursor) + 1 else old(cursor)
    {
      r := Peek();
      if r.Ok? {
        cursor := cursor + 1;
      }
    }

    /** Appends the cursor to the saved stack. */
    method PushCursor()
      modifies this`cursorStack
      ensures cursorStack == old(cursorStack) + [cursor]
    {
      cursorStack := cursorStack + [cursor];
    }

    /** Moves the most recently saved cursor back into the cursor and removes it. Popping an
        empty stack raises `IndexError` in the source; the parser never does. */
    method PopCursor()
      requires |cursorStack| > 0
      modifies this
      ensures cursor == old(cursorStack[|cursorStack| - 1])
      ensures cursorStack == old(cursorStack[..|cursorStack| - 1])
    {
      cursor := cursorStack[|cursorStack| - 1];
      cursorStack := cursorStack[..|cursorStack| - 1];
    }
  }

  // ----- The rules, as methods over the token stack -----

  /** `ParseBase.pop_expecting(type_)`. */
  method PopExpecting(ts: TokenStack, kind: TokenKind) returns (r: Result<Token, ParseError>)
    modifies ts
    ensures Step(r, ts.State()) == PopExpectingAt(ts.tokens, kind, old(ts.State()))
  {
    var next := ts.Pop();
    if next.Err? {
      return next;
    }
    if next.value.kind != kind {
      return Err(UnexpectedType(kind, next.value));
    }
    return next;
  }

  method IntegerLiteralExpression(ts: TokenStack) returns (r: Result<Node, ParseError>)
    modifies ts
    ensures Step(r, ts.State()) == ParseIntegerLiteral(ts.tokens, old(ts.State()))
  {
    var intToken := PopExpecting(ts, Integer);
    if intToken.Err? {
      return Err(intToken.error);
    }
    return Ok(AstNodes.IntegerLiteral(intToken.value.value));
  }

  method UnaryOpExpression(ts: TokenStack) returns (r: Result<Node, ParseError>)
    modifies ts
    ensures Step(r, ts.State()) == ParseUnary(ts.tokens, old(ts.State()))
    decreases Remaining(ts.tokens, ts.State()), 0
  {
    var opToken := ts.Pop();
    if opToken.Err? {
      return Err(opToken.error);
    }
    var op := opToken.value;
    if op.kind != Plus && op.kind != Minus {
      return Err(NotUnary(op));
    }
    var rhs := BinaryOpExpression(ts);
    if rhs.Err? {
      return rhs;
    }
    return Ok(AstNodes.UnaryOpExpression(op.value, rhs.value));
  }

  method BracketedExpression(ts: TokenStack) returns (r: Result<Node, ParseError>)
    modifies ts
    ensures Step(r, ts.State()) == ParseBracketed(ts.tokens, old(ts.State()))
    decreases Remaining(ts.tokens, ts.State()), 0
  {
    var left := PopExpecting(ts, LeftParen);
    if left.Err? {
      return Err(left.error);
    }
    var expr := BinaryOpExpression(ts);
    if expr.Err? {
      return expr;
    }
    var right := PopExpecting(ts, RightParen);
    if right.Err? {
      return Err(right.error);
    }
    return expr;
  }

  /** `parser(self.token_stack).node`: construct the given rule class on the stack. */
  method RunRule(ts: TokenStack, rule: Rule) returns (r: Result<Node, ParseError>)
    modifies ts
    ensures Step(r, ts.State()) == ApplyRule(ts.tokens, rule, old(ts.State()))
    decreases Remaining(ts.tokens, ts.State()), 1
  {
    match rule {
      case IntegerLiteralRule => r := IntegerLiteralExpression(ts);
      case UnaryOpRule => r := UnaryOpExpression(ts);
      case BracketedRule => r := BracketedExpression(ts);
    }
  }

  /** `PrimaryExpression.try_to_parse(parser)`. */
  method TryToParse(ts: TokenStack, rule: Rule) returns (node: Option<Node>)
    modifies ts
    ensures Attempt(node, ts.State()) == TryRule(ts.tokens, rule, old(ts.State()))
    decreases Remaining(ts.tokens, ts.State()), 2
  {
    ghost var st := ts.State();
    ts.PushCursor();
    var r := RunRule(ts, rule);
    RestoreExtends(st, ts.State());
    if r.Ok? {
      return Some(r.value);
    }
    ts.PopCursor();
    return None;
  }

  method PrimaryExpression(ts: TokenStack) returns (r: Result<Node, ParseError>)
    modifies ts
    ensures Step(r, ts.State()) == ParsePrimary(ts.tokens, old(ts.State()))
    decreases Remaining(ts.tokens, ts.State()), 3
  {
    var node := TryToParse(ts, IntegerLiteralRule);
    if node.Some? {
      return Ok(node.value);
    }
    node := TryToParse(ts, UnaryOpRule);
    if node.Some? {
      return Ok(node.value);
    }
    node := TryToParse(ts, BracketedRule);
    if node.Some? {
      return Ok(node.value);
    }
    var next := ts.Peek();
    if next.Err? {
      return Err(next.error);
    }
    return Err(NoPrimary(next.value));
  }

  /** The `Expression` every other rule calls, as finally bound. */
  method BinaryOpExpression(ts: TokenStack) returns (r: Result<Node, ParseError>)
    modifies ts
    ensures Step(r, ts.State()) == ParseBinary(ts.tokens, old(ts.State()))
    decreases Remaining(ts.tokens, ts.State()), 7
  {
    var primary := PrimaryExpression(ts);
    if primary.Err? {
      return primary;
    }
    r := ParseExpressionTail(ts, primary.value, 0);
  }

  /** `next_is_binary_()`. */
  method NextIsBinary(ts: TokenStack) returns (b: bool)
    ensures b <==> (ts.cursor < |ts.tokens| && ts.tokens[ts.cursor].value.Text?
                    && ts.tokens[ts.cursor].value.s in OpPrecedence)
  {
    var next := ts.Peek();
    if next.Err? {
      return false;
    }
    return next.value.value.Text? && next.value.value.s in OpPrecedence;
  }

  /** `precedence_(token)`, or `precedence_()` on the token under the cursor. */
  method Precedence(ts: TokenStack, token: Option<Token>) returns (p: nat)
    requires token.Some? ==> IsBinaryOp(token.value.value)
    requires token.None? ==> NextIsBinaryAt(ts.tokens, ts.State())
    ensures p == PrecedenceOf(if token.Some? then token.value else ts.tokens[ts.cursor])
  {
    var t: Token;
    if token.Some? {
      t := token.value;
    } else {
      var next := ts.Peek();
      t := next.value;
    }
    p := OpPrecedence[t.value.s];
  }

  /** `parse_expression_(lhs, min_precedence)`: the outer loop, with the inner loop in
      `ClimbOperand`. */
  method ParseExpressionTail(ts: TokenStack, lhs0: Node, minPrec: int) returns (r: Result<Node, ParseError>)
    modifies ts
    ensures Step(r, ts.State()) == Climb(ts.tokens, lhs0, minPrec, old(ts.State()))
    decreases Remaining(ts.tokens, ts.State()), 5
  {
    var lhs := lhs0;
    while true
      invariant old(ts.cursor) <= ts.cursor
      invariant Climb(ts.tokens, lhs, minPrec, ts.State()) == Climb(ts.tokens, lhs0, minPrec, old(ts.State()))
      decreases Remaining(ts.tokens, ts.State())
    {
      var isBinary := NextIsBinary(ts);
      if !isBinary {
        break;
      }
      var prec := Precedence(ts, None);
      if prec < minPrec {
        break;
      }
      ghost var before := ts.State();
      ghost var pass := ClimbIteration(ts.tokens, lhs, before);
      var opToken := ts.Pop();
      var op := opToken.value;
      // The source stores the `PrimaryExpression` object here (parsing.py:191) and so puts a
      // parser object, not a node, into the tree; the model stores its `.node`.
      var rhsResult := PrimaryExpression(ts);
      if rhsResult.Err? {
        assert pass == Step(rhsResult, ts.State());
        return rhsResult;
      }
      var rhs := ClimbOperand(ts, op, rhsResult.value);
      if rhs.Err? {
        assert pass == Step(rhs, ts.State());
        return rhs;
      }
      lhs := AstNodes.BinaryOpExpression(lhs, op.value, rhs.value);
      assert pass == Step(Ok(lhs), ts.State());
    }
    return Ok(lhs);
  }

  /** The inner loop of `parse_expression_`: while the next operator binds tighter than
      `op`, climb the right operand from that next operator's precedence. */
  method ClimbOperand(ts: TokenStack, op: Token, rhs0: Node) returns (r: Result<Node, ParseError>)
    requires IsBinaryOp(op.value)
    modifies ts
    ensures Step(r, ts.State()) == ClimbRhs(ts.tokens, rhs0, PrecedenceOf(op), old(ts.State()))
    decreases Remaining(ts.tokens, ts.State()), 6
  {
    var rhs := rhs0;
    while true
      invariant old(ts.cursor) <= ts.cursor
      invariant ClimbRhs(ts.tokens, rhs, PrecedenceOf(op), ts.State())
             == ClimbRhs(ts.tokens, rhs0, PrecedenceOf(op), old(ts.State()))
      decreases Remaining(ts.tokens, ts.State())
    {
      var more := NextIsBinary(ts);
      if !more {
        break;
      }
      var nextPrec := Precedence(ts, None);
      var opPrec := Precedence(ts, Some(op));
      if nextPrec <= opPrec {
        break;
      }
      var climbed := ParseExpressionTail(ts, rhs, nextPrec);
      if climbed.Err? {
        return climbed;
      }
      rhs := climbed.value;
    }
    return Ok(rhs);
  }

  /** `parse_expression(text)` (compiler.py): lex, wrap the tokens in a fresh stack, parse. */
  method ParseExpression(text: string) returns (r: Result<Node, Failure>)
    ensures r == ParseText(text)
  {
    var lexed := Lex(text);
    if lexed.Err? {
      return Err(LexFailure(lexed.error));
    }
    var ts := new TokenStack(lexed.value);
    var e := BinaryOpExpression(ts);
    if e.Err? {
      return Err(ParseFailure(e.error));
    }
    return Ok(e.value);
  }
}
