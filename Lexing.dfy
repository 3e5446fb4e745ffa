/** The lexer of lexing.py: an ordered table of token definitions, `first_token` (the longest
    match at an offset, earliest definition on ties) and `lex_raw`/`lex` (tile the whole text
    with consecutive tokens). The two regular expressions of the table, `[0-9]+` and `[ \t]+`,
    are modelled as maximal runs of a character class. */
module Lexing {
  import opened Wrappers
  import opened Decimal

  /** The eight token definitions, in table order. */
  datatype TokenKind = Plus | Minus | Asterisk | Slash | LeftParen | RightParen | Integer | Whitespace
  {
    /** The definition's name, as `TokenDef.__repr__` prints it after `TokenType.`. */
    function Name(): string {
      match this
      case Plus => "plus"
      case Minus => "minus"
      case Asterisk => "asterisk"
      case Slash => "slash"
      case LeftParen => "left_paren"
      case RightParen => "right_paren"
      case Integer => "integer"
      case Whitespace => "whitespace"
    }
  }

  datatype CharClass = Digits | Blanks

  predicate InClass(cls: CharClass, c: char) {
    match cls
    case Digits => IsDigit(c)
    case Blanks => c == ' ' || c == '\t'
  }

  /** A definition's pattern: none, an exact string, or a compiled `[class]+` expression. */
  datatype Pattern = NoPattern | Literal(lit: string) | Run(cls: CharClass)

  /** The definition's value filter: none (keep the text) or `int`. */
  datatype ValueFilter = NoFilter | ToInt

  datatype TokenDef = TokenDef(kind: TokenKind, pattern: Pattern, filter: ValueFilter)

  /** `TokenType._defs`: built once, never changed. */
  const Defs: seq<TokenDef> := [
    TokenDef(Plus, Literal("+"), NoFilter),
    TokenDef(Minus, Literal("-"), NoFilter),
    TokenDef(Asterisk, Literal("*"), NoFilter),
    TokenDef(Slash, Literal("/"), NoFilter),
    TokenDef(LeftParen, Literal("("), NoFilter),
    TokenDef(RightParen, Literal(")"), NoFilter),
    TokenDef(Integer, Run(Digits), ToInt),
    TokenDef(Whitespace, Run(Blanks), NoFilter)
  ]

  /** The position of a kind's definition in the table; each kind is defined exactly once. */
  function KindIndex(k: TokenKind): (i: nat)
    ensures i < |Defs| && Defs[i].kind == k
    ensures forall j :: 0 <= j < |Defs| && Defs[j].kind == k ==> j == i
  {
    match k
    case Plus => 0
    case Minus => 1
    case Asterisk => 2
    case Slash => 3
    case LeftParen => 4
    case RightParen => 5
    case Integer => 6
    case Whitespace => 7
  }

  /** A token's value: the matched text, or the integer `int` made of it. */
  datatype Value = Text(s: string) | Int(n: nat)

  /** The half-open range `[start, stop)` of the text a token covers. */
  datatype Slice = Slice(start: nat, stop: nat)

  datatype Token = Token(kind: TokenKind, value: Value, slice: Slice)

  /** `lex` fails when no definition matches at `offset` (`None` is yielded and then
      dereferenced). */
  datatype LexError = NoTokenAt(offset: nat)

  /** Python's `text[start:]`. */
  function Rest(text: string, start: nat): string {
    if start <= |text| then text[start..] else []
  }

  /** The length of the longest prefix of `s` made of characters of `cls`: what
      `re.compile('[...]+').match` consumes. */
  function RunLength(s: string, cls: CharClass): (n: nat)
    ensures n <= |s|
    ensures forall k :: 0 <= k < n ==> InClass(cls, s[k])
    ensures n < |s| ==> !InClass(cls, s[n])
  {
    if |s| > 0 && InClass(cls, s[0]) then 1 + RunLength(s[1..], cls) else 0
  }

  /** The text a definition matches at the front of `text[start:]`, if any. */
  function MatchText(d: TokenDef, text: string, start: nat): (m: Option<string>)
    ensures m.Some? ==> |m.value| <= |Rest(text, start)| && Rest(text, start)[..|m.value|] == m.value
    ensures m.Some? && d.pattern.Literal? ==> m.value == d.pattern.lit
    ensures m.Some? && d.pattern.Run? ==>
      && |m.value| > 0
      && (forall k :: 0 <= k < |m.value| ==> InClass(d.pattern.cls, m.value[k]))
      && (|m.value| < |Rest(text, start)| ==> !InClass(d.pattern.cls, Rest(text, start)[|m.value|]))
    ensures d.pattern.NoPattern? ==> m.None?
    ensures d.pattern.Literal? ==>
      (m.Some? <==> |d.pattern.lit| <= |Rest(text, start)| && Rest(text, start)[..|d.pattern.lit|] == d.pattern.lit)
    ensures d.pattern.Run? ==>
      (m.Some? <==> |Rest(text, start)| > 0 && InClass(d.pattern.cls, Rest(text, start)[0]))
  {
    var rest := Rest(text, start);
    match d.pattern
    case NoPattern => None
    case Literal(lit) => if |lit| <= |rest| && rest[..|lit|] == lit then Some(lit) else None
    case Run(cls) =>
      var n := RunLength(rest, cls);
      if n == 0 then None else Some(rest[..n])
  }

  /** What the table guarantees of each entry: literals are non-empty and `int` is only
      applied to digit runs. */
  predicate WellFormedDef(d: TokenDef) {
    && (d.pattern.Literal? ==> |d.pattern.lit| > 0)
    && (d.filter.ToInt? ==> d.pattern == Run(Digits))
  }

  lemma DefsWellFormed()
    ensures forall i :: 0 <= i < |Defs| ==> WellFormedDef(Defs[i])
  {
  }

  predicate Convertible(d: TokenDef, m: string) {
    d.filter.ToInt? ==> AllDigits(m)
  }

  function FilterValue(f: ValueFilter, m: string): Value
    requires f.ToInt? ==> AllDigits(m)
  {
    match f
    case NoFilter => Text(m)
    case ToInt => Int(DecimalValue(m))
  }

  /** The token built for definition `d` after it matched `m` at `start`; the slice is
      measured on the raw matched text. */
  function MakeToken(d: TokenDef, m: string, start: nat): Token
    requires Convertible(d, m)
  {
    Token(d.kind, FilterValue(d.filter, m), Slice(start, start + |m|))
  }

  predicate Matches(i: nat, text: string, start: nat)
    requires i < |Defs|
  {
    MatchText(Defs[i], text, start).Some?
  }

  function MatchLength(i: nat, text: string, start: nat): nat
    requires i < |Defs| && Matches(i, text, start)
  {
    |MatchText(Defs[i], text, start).value|
  }

  lemma MatchConvertible(i: nat, text: string, start: nat)
    requires i < |Defs| && Matches(i, text, start)
    ensures Convertible(Defs[i], MatchText(Defs[i], text, start).value)
    ensures MatchLength(i, text, start) > 0
  {
    DefsWellFormed();
    assert WellFormedDef(Defs[i]);
  }

  /** The loop state of `first_token`: the current token and the raw text it was made of. */
  datatype Candidate = Candidate(token: Token, matched: string)

  /** One iteration of the loop of `first_token`: a def replaces the current token only when
      its match is strictly longer. */
  function ScanStep(acc: Option<Candidate>, i: nat, text: string, start: nat): Option<Candidate>
    requires i < |Defs|
  {
    var m := MatchText(Defs[i], text, start);
    if m.None? then acc
    else if acc.Some? && |acc.value.matched| >= |m.value| then acc
    else
      MatchConvertible(i, text, start);
      Some(Candidate(MakeToken(Defs[i], m.value, start), m.value))
  }

  /** The loop state of `first_token` after the first `n` definitions. */
  function ScanDefs(text: string, start: nat, n: nat): Option<Candidate>
    requires n <= |Defs|
  {
    if n == 0 then None else ScanStep(ScanDefs(text, start, n - 1), n - 1, text, start)
  }

  /** `c` was produced by definition `KindIndex(c.token.kind)`, which is, among the first `n`
      definitions, one with the longest match and the earliest of those. */
  predicate Chosen(text: string, start: nat, n: nat, c: Candidate)
    requires n <= |Defs|
  {
    var i := KindIndex(c.token.kind);
    && i < n
    && Matches(i, text, start)
    && c.matched == MatchText(Defs[i], text, start).value
    && Convertible(Defs[i], c.matched)
    && c.token == MakeToken(Defs[i], c.matched, start)
    && forall j :: 0 <= j < n && Matches(j, text, start) ==>
         MatchLength(j, text, start) <= |c.matched| && (j < i ==> MatchLength(j, text, start) < |c.matched|)
  }

  /** What the scan state after `n` definitions says: nothing yet exactly when none of the
      first `n` definitions matches, and otherwise the chosen candidate. */
  predicate ScanInvariant(text: string, start: nat, n: nat, acc: Option<Candidate>)
    requires n <= |Defs|
  {
    && (acc.None? <==> forall j :: 0 <= j < n ==> !Matches(j, text, start))
    && (acc.Some? ==> Chosen(text, start, n, acc.value))
  }

  /** One iteration of the loop keeps the scan state meaningful. */
  lemma ScanStepChooses(text: string, start: nat, n: nat, acc: Option<Candidate>)
    requires n < |Defs| && ScanInvariant(text, start, n, acc)
    ensures ScanInvariant(text, start, n + 1, ScanStep(acc, n, text, start))
  {
    var m := MatchText(Defs[n], text, start);
    if m.None? {
      ScanStepKeeps(text, start, n, acc);
    } else if acc.Some? && |acc.value.matched| >= |m.value| {
      ScanStepKeeps(text, start, n, acc);
    } else {
      ScanStepReplaces(text, start, n, acc);
    }
  }

  /** A definition that does not match, or matches no longer than the current candidate,
      leaves the scan state as it was. */
  lemma ScanStepKeeps(text: string, start: nat, n: nat, acc: Option<Candidate>)
    requires n < |Defs| && ScanInvariant(text, start, n, acc)
    requires !Matches(n, text, start) || (acc.Some? && |acc.value.matched| >= MatchLength(n, text, start))
    ensures ScanStep(acc, n, text, start) == acc
    ensures ScanInvariant(text, start, n + 1, acc)
  {
    if acc.Some? {
      var c := acc.value;
      var i := KindIndex(c.token.kind);
      assert Chosen(text, start, n, c);
      forall j | 0 <= j < n + 1 && Matches(j, text, start)
        ensures MatchLength(j, text, start) <= |c.matched| && (j < i ==> MatchLength(j, text, start) < |c.matched|)
      {
        if j == n {
          assert i < n;
        }
      }
      assert Chosen(text, start, n + 1, c);
    } else {
      assert forall j :: 0 <= j < n + 1 ==> !Matches(j, text, start);
    }
  }

  /** A definition whose match is strictly longer than the current candidate's, or the first
      one to match, becomes the candidate. */
  lemma ScanStepReplaces(text: string, start: nat, n: nat, acc: Option<Candidate>)
    requires n < |Defs| && ScanInvariant(text, start, n, acc)
    requires Matches(n, text, start) && (acc.Some? ==> |acc.value.matched| < MatchLength(n, text, start))
    ensures ScanStep(acc, n, text, start).Some?
    ensures ScanInvariant(text, start, n + 1, ScanStep(acc, n, text, start))
  {
    var m := MatchText(Defs[n], text, start).value;
    MatchConvertible(n, text, start);
    var c := Candidate(MakeToken(Defs[n], m, start), m);
    assert ScanStep(acc, n, text, start) == Some(c);
    assert KindIndex(c.token.kind) == n;
    forall j | 0 <= j < n + 1 && Matches(j, text, start)
      ensures MatchLength(j, text, start) <= |c.matched| && (j < n ==> MatchLength(j, text, start) < |c.matched|)
    {
      if j < n {
        assert acc.Some?;
        assert Chosen(text, start, n, acc.value);
      }
    }
    assert Chosen(text, start, n + 1, c);
  }

  lemma {:induction false} ScanDefsChooses(text: string, start: nat, n: nat)
    requires n <= |Defs|
    ensures ScanInvariant(text, start, n, ScanDefs(text, start, n))
  {
    if n > 0 {
      ScanDefsChooses(text, start, n - 1);
      ScanStepChooses(text, start, n - 1, ScanDefs(text, start, n - 1));
    }
  }

  /** `first_token(text, start)`, as a function: the token of the definition chosen by the
      scan, or `None` when no definition matches. */
  function LongestMatch(text: string, start: nat): (t: Option<Token>)
    ensures t.Some? ==> t.value.slice.start == start < t.value.slice.stop <= |text|
  {
    ScanDefsChooses(text, start, |Defs|);
    var c := ScanDefs(text, start, |Defs|);
    if c.None? then None
    else
      MatchConvertible(KindIndex(c.value.token.kind), text, start);
      Some(c.value.token)
  }

  /** `first_token` returns the longest match at `start`; among equally long matches the
      earliest definition wins; it returns `None` exactly when no definition matches. */
  lemma LongestMatchSpec(text: string, start: nat)
    ensures LongestMatch(text, start).None? <==> forall j :: 0 <= j < |Defs| ==> !Matches(j, text, start)
    ensures LongestMatch(text, start).Some? ==>
      var t := LongestMatch(text, start).value;
      var i := KindIndex(t.kind);
      Matches(i, text, start) &&
      var m := MatchText(Defs[i], text, start).value;
      && Convertible(Defs[i], m)
      && t == MakeToken(Defs[i], m, start)
      && forall j :: 0 <= j < |Defs| && Matches(j, text, start) ==>
           MatchLength(j, text, start) <= |m| && (j < i ==> MatchLength(j, text, start) < |m|)
  {
    ScanDefsChooses(text, start, |Defs|);
  }

  /** `first_token` as the loop over the table that the source runs. */
  method FirstToken(text: string, start: nat) returns (token: Option<Token>)
    ensures token == LongestMatch(text, start)
  {
    var matchText := Rest(text, start);
    token := None;
    var tokenText: Option<string> := None;
    for i := 0 to |Defs|
      invariant ScanDefs(text, start, i).None? ==> token.None? && tokenText.None?
      invariant ScanDefs(text, start, i).Some? ==>
        token == Some(ScanDefs(text, start, i).value.token) &&
        tokenText == Some(ScanDefs(text, start, i).value.matched)
    {
      var d := Defs[i];
      var matchValue: string;
      match d.pattern {
        case NoPattern =>
          continue;
        case Literal(lit) =>
          if !(|lit| <= |matchText| && matchText[..|lit|] == lit) {
            continue;
          }
          matchValue := lit;
        case Run(cls) =>
          var n := RunLength(matchText, cls);
          if n == 0 {
            continue;
          }
          matchValue := matchText[..n];
      }
      assert MatchText(d, text, start) == Some(matchValue);
      if tokenText.Some? && |tokenText.value| >= |matchValue| {
        continue;
      }
      MatchConvertible(i, text, start);
      tokenText := Some(matchValue);
      token := Some(MakeToken(d, matchValue, start));
    }
  }

  /** Every character some definition can match. */
  predicate Recognised(c: char) {
    c == '+' || c == '-' || c == '*' || c == '/' || c == '(' || c == ')' || InClass(Digits, c) || InClass(Blanks, c)
  }

  /** `first_token` finds nothing at an in-range offset exactly when the character there is
      not recognised. */
  lemma LongestMatchNoneIff(text: string, start: nat)
    requires start < |text|
    ensures LongestMatch(text, start).None? <==> !Recognised(text[start])
  {
    LongestMatchSpec(text, start);
    var rest := Rest(text, start);
    assert rest[0] == text[start];
    if Recognised(text[start]) {
      var c := text[start];
      var j := if c == '+' then 0 else if c == '-' then 1 else if c == '*' then 2
               else if c == '/' then 3 else if c == '(' then 4 else if c == ')' then 5
               else if InClass(Digits, c) then 6 else 7;
      assert j < 6 ==> rest[..1] == [c];
      assert Matches(j, text, start);
    } else {
      DefsWellFormed();
      forall j | 0 <= j < |Defs| ensures !Matches(j, text, start) {
        assert WellFormedDef(Defs[j]);
      }
    }
  }

  /** The token `first_token` returns covers only recognised characters, and only the text
      its definition matched. */
  lemma LongestMatchCovers(text: string, start: nat)
    requires LongestMatch(text, start).Some?
    ensures var t := LongestMatch(text, start).value;
      forall k :: start <= k < t.slice.stop ==> Recognised(text[k])
  {
    LongestMatchSpec(text, start);
    var t := LongestMatch(text, start).value;
    var i := KindIndex(t.kind);
    var m := MatchText(Defs[i], text, start).value;
    DefsWellFormed();
    assert WellFormedDef(Defs[i]);
    forall k | start <= k < t.slice.stop ensures Recognised(text[k]) {
      assert text[k] == m[k - start];
      if i < 6 {
        assert |m| == 1;
      }
    }
  }

  /** The characters a definition's match can begin with. */
  predicate CanStart(d: TokenDef, c: char) {
    match d.pattern
    case NoPattern => false
    case Literal(lit) => |lit| > 0 && lit[0] == c
    case Run(cls) => InClass(cls, c)
  }

  /** A definition that cannot begin with the character at `start` does not match there. */
  lemma NoMatchWithoutStart(i: nat, text: string, start: nat)
    requires i < |Defs| && start < |text| && !CanStart(Defs[i], text[start])
    ensures !Matches(i, text, start)
  {
    var rest := Rest(text, start);
    assert rest[0] == text[start];
    DefsWellFormed();
    assert WellFormedDef(Defs[i]);
  }

  /** When exactly one definition matches, `first_token` returns its token. */
  lemma LongestMatchUnique(text: string, start: nat, i: nat)
    requires i < |Defs| && Matches(i, text, start)
    requires forall j :: 0 <= j < |Defs| && j != i ==> !Matches(j, text, start)
    ensures Convertible(Defs[i], MatchText(Defs[i], text, start).value)
    ensures LongestMatch(text, start) == Some(MakeToken(Defs[i], MatchText(Defs[i], text, start).value, start))
  {
    LongestMatchSpec(text, start);
    MatchConvertible(i, text, start);
  }

  /** A punctuation definition wins whenever the remaining text starts with its literal; the
      token's value is the literal and it covers one character. */
  lemma LongestMatchPunctuation(text: string, start: nat, i: nat)
    requires i < 6
    requires start < |text| && [text[start]] == Defs[i].pattern.lit
    ensures LongestMatch(text, start) == Some(Token(Defs[i].kind, Text(Defs[i].pattern.lit), Slice(start, start + 1)))
  {
    var rest := Rest(text, start);
    assert rest[..1] == [text[start]];
    assert Matches(i, text, start);
    forall j | 0 <= j < |Defs| && j != i ensures !Matches(j, text, start) {
      NoMatchWithoutStart(j, text, start);
    }
    LongestMatchUnique(text, start, i);
  }

  /** At a digit, the integer definition wins: the token covers the maximal digit run and its
      value is that run's number (so `68` is one token, not two). */
  lemma LongestMatchDigits(text: string, start: nat)
    requires start < |text| && IsDigit(text[start])
    ensures var n := RunLength(text[start..], Digits);
      && 0 < n && start + n <= |text|
      && (start + n < |text| ==> !IsDigit(text[start + n]))
      && AllDigits(text[start..start + n])
      && LongestMatch(text, start) == Some(Token(Integer, Int(DecimalValue(text[start..start + n])), Slice(start, start + n)))
  {
    var rest := Rest(text, start);
    assert rest[0] == text[start];
    assert Matches(6, text, start);
    forall j | 0 <= j < |Defs| && j != 6 ensures !Matches(j, text, start) {
      NoMatchWithoutStart(j, text, start);
    }
    LongestMatchUnique(text, start, 6);
    var n := RunLength(rest, Digits);
    assert rest[..n] == text[start..start + n];
  }

  /** At a space or a tab, the whitespace definition wins: the token covers the maximal run
      of blanks and keeps it as its value. */
  lemma LongestMatchBlanks(text: string, start: nat)
    requires start < |text| && InClass(Blanks, text[start])
    ensures var n := RunLength(text[start..], Blanks);
      && 0 < n && start + n <= |text|
      && (start + n < |text| ==> !InClass(Blanks, text[start + n]))
      && LongestMatch(text, start) == Some(Token(Whitespace, Text(text[start..start + n]), Slice(start, start + n)))
  {
    var rest := Rest(text, start);
    assert rest[0] == text[start];
    assert Matches(7, text, start);
    forall j | 0 <= j < |Defs| && j != 7 ensures !Matches(j, text, start) {
      NoMatchWithoutStart(j, text, start);
    }
    LongestMatchUnique(text, start, 7);
    var n := RunLength(rest, Blanks);
    assert rest[..n] == text[start..start + n];
  }

  /** `lex_raw(text)` continued from offset `start`: the tokens up to the end of the text, or
      the offset at which nothing matched. */
  function LexFrom(text: string, start: nat): Result<seq<Token>, LexError>
    decreases |text| - start
  {
    if start >= |text| then Ok([])
    else match LongestMatch(text, start)
      case None => Err(NoTokenAt(start))
      case Some(t) => Prepend([t], LexFrom(text, t.slice.stop))
  }

  function Prepend(prefix: seq<Token>, r: Result<seq<Token>, LexError>): Result<seq<Token>, LexError> {
    match r
    case Ok(ts) => Ok(prefix + ts)
    case Err(e) => Err(e)
  }

  /** `lex(text)`; `lex` is `lex_raw`, so whitespace tokens stay in the output. */
  function LexText(text: string): Result<seq<Token>, LexError> {
    LexFrom(text, 0)
  }

  /** `lex_raw` as the loop that the source runs, collecting what it yields. */
  method Lex(text: string) returns (r: Result<seq<Token>, LexError>)
    ensures r == LexText(text)
  {
    var start: nat := 0;
    var tokens: seq<Token> := [];
    match LexFrom(text, 0) {
      case Ok(ts) => assert [] + ts == ts;
      case Err(_) =>
    }
    while start < |text|
      invariant start <= |text|
      invariant LexText(text) == Prepend(tokens, LexFrom(text, start))
      decreases |text| - start
    {
      var token := FirstToken(text, start);
      if token.None? {
        return Err(NoTokenAt(start));
      }
      var t := token.value;
      match LexFrom(text, t.slice.stop) {
        case Ok(ts) => assert tokens + ([t] + ts) == (tokens + [t]) + ts;
        case Err(_) =>
      }
      tokens := tokens + [t];
      start := t.slice.stop;
    }
    assert tokens + [] == tokens;
    return Ok(tokens);
  }

  /** The tokens tile `text[start:]`: the first starts at `start`, each starts where the
      previous one stopped, each is non-empty and the last stops at the end of the text. */
  predicate TilesFrom(text: string, start: nat, tokens: seq<Token>) {
    && (|tokens| == 0 <==> start >= |text|)
    && (|tokens| > 0 ==> tokens[0].slice.start == start && tokens[|tokens| - 1].slice.stop == |text|)
    && (forall i :: 0 <= i < |tokens| ==> tokens[i].slice.start < tokens[i].slice.stop)
    && (forall i :: 0 <= i < |tokens| - 1 ==> tokens[i].slice.stop == tokens[i + 1].slice.start)
  }

  lemma {:induction false} LexFromTiles(text: string, start: nat)
    requires start <= |text|
    requires LexFrom(text, start).Ok?
    ensures TilesFrom(text, start, LexFrom(text, start).value)
    decreases |text| - start
  {
    if start < |text| {
      var t := LongestMatch(text, start).value;
      LexFromTiles(text, t.slice.stop);
      var rest := LexFrom(text, t.slice.stop).value;
      var all := [t] + rest;
      assert LexFrom(text, start).value == all;
      forall i | 0 <= i < |all| - 1 ensures all[i].slice.stop == all[i + 1].slice.start {
        if i > 0 {
          assert all[i] == rest[i - 1] && all[i + 1] == rest[i];
        }
      }
      forall i | 0 <= i < |all| ensures all[i].slice.start < all[i].slice.stop {
        if i > 0 {
          assert all[i] == rest[i - 1];
        }
      }
    }
  }

  /** A successful `lex` tiles the whole text; empty text gives no tokens. */
  lemma LexTiles(text: string)
    requires LexText(text).Ok?
    ensures TilesFrom(text, 0, LexText(text).value)
  {
    LexFromTiles(text, 0);
  }

  lemma {:induction false} LexFromSucceedsIff(text: string, start: nat)
    requires start <= |text|
    ensures LexFrom(text, start).Ok? <==> forall k :: start <= k < |text| ==> Recognised(text[k])
    decreases |text| - start
  {
    if start < |text| {
      LongestMatchNoneIff(text, start);
      var t := LongestMatch(text, start);
      if t.Some? {
        LexFromSucceedsIff(text, t.value.slice.stop);
        LongestMatchCovers(text, start);
      }
    }
  }

  /** `lex` succeeds exactly when every character of the text is recognised; an
      unrecognised character makes it fail. */
  lemma LexSucceedsIff(text: string)
    ensures LexText(text).Ok? <==> forall k :: 0 <= k < |text| ==> Recognised(text[k])
  {
    LexFromSucceedsIff(text, 0);
  }

  /** Lexing the decimal spelling of `n` gives exactly one integer token, with value `n`,
      covering the whole text. */
  lemma LexNatToString(n: nat)
    ensures var s := NatToString(n);
      LexText(s) == Ok([Token(Integer, Int(n), Slice(0, |s|))])
  {
    var s := NatToString(n);
    LongestMatchDigits(s, 0);
    var k := RunLength(s[0..], Digits);
    assert s[0..] == s;
    assert k == |s|;
    assert s[0..k] == s;
    DecimalOfNatToString(n);
    assert LexFrom(s, |s|) == Ok([]);
    var t := Token(Integer, Int(n), Slice(0, |s|));
    assert [t] + [] == [t];
  }
}
