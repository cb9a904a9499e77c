/** The flat tokenizer: one pass over the source that cuts it into tokens,
    decodes each token's value and records where it starts (line and column).

    The token regular expression is not modelled: a `Matcher` stands for
    `TOKENS_RE.match` at the current position and reports which alternative
    matched, how long the match is, and where the sub-groups the decoder reads lie. */
module Tokenizer2 {
  import opened Chars
  import opened Results
  import opened TokenData

  /** The alternative of the token expression that matched. */
  datatype Group =
    | SGroup
    | UriGroup(contentStart: nat, contentEnd: nat)      // offsets of `uri_content`
    | BadUriGroup | FunctionGroup | UnicodeRangeGroup | IdentGroup | AtKeywordGroup | HashGroup
    | NumbersGroup(numberLength: nat, isInteger: bool)  // `integer` or `fractional`, then `unit`
    | StringGroup | BadStringGroup | CommentGroup | BadCommentGroup | CdoGroup | CdcGroup

  datatype RegexMatch = RegexMatch(group: Group, length: nat)

  /** `TOKENS_RE.match(css_source, pos)`, given the text from `pos` on
      (the expression looks neither behind `pos` nor at the end of the text). */
  type Matcher = Text -> Option<RegexMatch>

  /** The digits of an integer literal: the text after an optional sign. */
  function IntegerDigits(t: Text): Text
  {
    if |t| > 0 && (t[0] == '+' as int || t[0] == '-' as int) then t[1..] else t
  }

  predicate AllDigits(ds: Text) { forall i :: 0 <= i < |ds| ==> IsDigit(ds[i]) }

  /** `[+-]?[0-9]+` */
  predicate IsIntegerLiteral(t: Text)
  {
    |IntegerDigits(t)| > 0 && AllDigits(IntegerDigits(t))
  }

  function DecimalValue(ds: Text): nat
    requires AllDigits(ds)
  {
    if ds == [] then 0
    else
      assert IsDigit(ds[|ds| - 1]);
      DecimalValue(ds[..|ds| - 1]) * 10 + (ds[|ds| - 1] - '0' as int)
  }

  /** `int(t)` for an integer literal. */
  function IntegerLiteralValue(t: Text): int
    requires IsIntegerLiteral(t)
  {
    var magnitude: int := DecimalValue(IntegerDigits(t));
    if t[0] == '-' as int then -magnitude else magnitude
  }

  /** What a regular-expression match guarantees: it is a non-empty prefix of the
      remaining text and its sub-groups lie inside it. */
  predicate MatchFits(m: RegexMatch, rest: Text)
  {
    && 1 <= m.length <= |rest|
    && match m.group
       case UriGroup(s, e) => s <= e <= m.length
       case NumbersGroup(n, isInteger) => 1 <= n <= m.length && (isInteger ==> IsIntegerLiteral(rest[..n]))
       case _ => true
  }

  ghost predicate ValidMatcher(matcher: Matcher)
  {
    forall rest: Text {:trigger matcher(rest)} ::
      |rest| > 0 && matcher(rest).Some? ==> MatchFits(matcher(rest).value, rest)
  }

  /** The characters `:;{}()[]`, which the loop turns into tokens without the matcher. */
  predicate IsPunctuation(c: CodePoint)
  {
    c in {':' as int, ';' as int, '{' as int, '}' as int, '(' as int, ')' as int, '[' as int, ']' as int}
  }

  function PunctuationKind(c: CodePoint): Kind
    requires IsPunctuation(c)
  {
    if c == ':' as int then Colon
    else if c == ';' as int then Semicolon
    else if c == '{' as int then LeftBrace
    else if c == '}' as int then RightBrace
    else if c == '(' as int then LeftParen
    else if c == ')' as int then RightParen
    else if c == '[' as int then LeftBracket
    else RightBracket
  }

  predicate IsQuote(c: CodePoint) { c == '"' as int || c == '\'' as int }

  /** One token before its position is attached. */
  datatype Lexeme = Lexeme(kind: Kind, raw: Text, value: Value, unit: Option<Text>)

  /** The value of a STRING token: quotes removed, then line continuations,
      code-point escapes and simple escapes decoded. */
  function StringValue(quoted: Text): Text
  {
    UnescapeName(NewlineUnescape(StripEnds(quoted)))
  }

  /** Type, value and unit of a matched token, as the `if groups[...]` chain decides them.
      `atEnd` says whether the match reaches the end of the source. */
  function Decode(group: Group, raw: Text, atEnd: bool): (l: Lexeme)
    requires group.NumbersGroup? ==> 1 <= group.numberLength <= |raw|
    requires group.NumbersGroup? && group.isInteger ==> IsIntegerLiteral(raw[..group.numberLength])
    requires group.UriGroup? ==> group.contentStart <= group.contentEnd <= |raw|
    ensures l.raw == raw
    ensures group.NumbersGroup? ==>
      && l.kind in {Integer, Number, Percentage, Dimension}
      && (l.unit.Some? <==> group.numberLength < |raw|)
      && (l.kind == Integer <==> group.isInteger && group.numberLength == |raw|)
      && (l.kind == Percentage <==> raw[group.numberLength..] == Lit("%"))
      && (l.kind == Dimension ==> l.unit.Some? && NoUpper(l.unit.value))
      && (group.isInteger ==> l.value == IntValue(IntegerLiteralValue(raw[..group.numberLength])))
    ensures group.BadStringGroup? && atEnd ==> l.kind == String
    ensures group.BadStringGroup? && !atEnd ==> l.kind == BadString && l.value == TextValue(raw)
  {
    match group
    case SGroup => Lexeme(S, raw, TextValue(raw), None)
    case NumbersGroup(n, isInteger) =>
      var number := raw[..n];
      var unit := raw[n..];
      var value := if isInteger then IntValue(IntegerLiteralValue(number)) else FloatValue(number);
      if unit == [] then Lexeme(if isInteger then Integer else Number, raw, value, None)
      else if unit == Lit("%") then Lexeme(Percentage, raw, value, Some(unit))
      else Lexeme(Dimension, raw, value, Some(Lower(UnescapeName(unit))))
    case IdentGroup => Lexeme(Ident, raw, TextValue(UnescapeName(raw)), None)
    case AtKeywordGroup => Lexeme(AtKeyword, raw, TextValue(UnescapeName(raw)), None)
    case HashGroup => Lexeme(Hash, raw, TextValue(UnescapeName(raw)), None)
    case FunctionGroup => Lexeme(Function, raw, TextValue(UnescapeName(raw)), None)
    case UriGroup(s, e) =>
      var content := raw[s..e];
      var unquoted := if |content| > 0 && IsQuote(content[0])
                      then NewlineUnescape(StripEnds(content)) else content;
      Lexeme(Uri, raw, TextValue(UnescapeName(unquoted)), None)
    case StringGroup => Lexeme(String, raw, TextValue(StringValue(raw)), None)
    case BadStringGroup =>
      if atEnd then Lexeme(String, raw, TextValue(UnescapeName(NewlineUnescape(DropFirst(raw)))), None)
      else Lexeme(BadString, raw, TextValue(raw), None)
    case CommentGroup => Lexeme(Comment, raw, TextValue(raw), None)
    case BadCommentGroup => Lexeme(BadComment, raw, TextValue(raw), None)
    case BadUriGroup => Lexeme(BadUri, raw, TextValue(raw), None)
    case UnicodeRangeGroup => Lexeme(UnicodeRange, raw, TextValue(raw), None)
    case CdoGroup => Lexeme(Cdo, raw, TextValue(raw), None)
    case CdcGroup => Lexeme(Cdc, raw, TextValue(raw), None)
  }

  /** A string left open at the end of the source has the value it would have had
      with its closing quote written out. */
  lemma {:induction false} UnclosedStringAtEnd(quote: CodePoint, body: Text)
    ensures Decode(BadStringGroup, [quote] + body, true)
         == Lexeme(String, [quote] + body, TextValue(StringValue([quote] + body + [quote])), None)
  {
    assert StripEnds([quote] + body + [quote]) == body;
    assert DropFirst([quote] + body) == body;
  }

  /** The token at the start of `rest`: one iteration of the loop. */
  function Lex(rest: Text, matcher: Matcher): (l: Lexeme)
    requires |rest| > 0 && ValidMatcher(matcher)
    ensures 1 <= |l.raw| <= |rest| && l.raw == rest[..|l.raw|]
    ensures IsPunctuation(rest[0]) ==> l.kind == PunctuationKind(rest[0]) && l.raw == [rest[0]]
    ensures !IsPunctuation(rest[0]) && matcher(rest).None? ==>
              l.kind == Delim && l.raw == [rest[0]] && l.value == TextValue([rest[0]])
    ensures !IsPunctuation(rest[0]) && matcher(rest).Some? ==> |l.raw| == matcher(rest).value.length
  {
    var c := rest[0];
    if IsPunctuation(c) then Lexeme(PunctuationKind(c), [c], TextValue([c]), None)
    else
      match matcher(rest)
      case None => Lexeme(Delim, [c], TextValue([c]), None)
      case Some(m) =>
        assert MatchFits(m, rest);
        assert m.group.NumbersGroup? ==> rest[..m.length][..m.group.numberLength] == rest[..m.group.numberLength];
        Decode(m.group, rest[..m.length], m.length == |rest|)
  }

  // ----- Positions ---------------------------------------------------------

  datatype Position = Position(line: int, column: int)

  const Start := Position(1, 1)

  /** Length of the `\n|\r\n|\r|\f` match at the start of `t`, 0 if none. */
  function NewlineAt(t: Text): (k: nat)
    requires |t| > 0
    ensures k <= 2 && k <= |t|
  {
    if t[0] == CR && |t| > 1 && t[1] == LF then 2 else if IsNewlineChar(t[0]) then 1 else 0
  }

  /** What `list(find_newlines(t))` is used for: how many newlines `t` holds and
      where the last one ends. */
  datatype Newlines = Newlines(count: nat, lastEnd: nat)

  function FindNewlines(t: Text): (r: Newlines)
    ensures r.lastEnd <= |t|
    ensures r.count == 0 <==> r.lastEnd == 0
    decreases |t|
  {
    if t == [] then Newlines(0, 0)
    else
      var k := NewlineAt(t);
      var step := if k == 0 then 1 else k;
      var after := FindNewlines(t[step..]);
      if after.count > 0 then Newlines(after.count + (if k > 0 then 1 else 0), after.lastEnd + step)
      else if k > 0 then Newlines(1, k)
      else Newlines(0, 0)
  }

  /** The position after reading `raw` from position `at`: the update at the end of the loop. */
  function Advance(at: Position, raw: Text): Position
  {
    var nl := FindNewlines(raw);
    if nl.count > 0 then Position(at.line + nl.count, |raw| - nl.lastEnd + 1)
    else Position(at.line, at.column + |raw|)
  }

  /** The independent reference: line = 1 + newlines in `prefix`, column = 1 + the
      characters after the last newline. */
  function PositionOf(prefix: Text): Position
  {
    var nl := FindNewlines(prefix);
    Position(1 + nl.count, |prefix| - nl.lastEnd + 1)
  }

  /** `a` ends with `\r` and `b` begins with `\n`: cutting there splits a CRLF. */
  predicate SplitsCrlf(a: Text, b: Text)
  {
    |a| > 0 && a[|a| - 1] == CR && |b| > 0 && b[0] == LF
  }

  lemma {:induction false} FindNewlinesAppend(a: Text, b: Text)
    requires !SplitsCrlf(a, b)
    ensures var na, nb := FindNewlines(a), FindNewlines(b);
            FindNewlines(a + b) == if nb.count > 0 then Newlines(na.count + nb.count, nb.lastEnd + |a|) else na
    decreases |a|
  {
    if a == [] {
      assert a + b == b;
    } else {
      var k := NewlineAt(a);
      var step := if k == 0 then 1 else k;
      assert NewlineAt(a + b) == k;
      assert (a + b)[step..] == a[step..] + b;
      FindNewlinesAppend(a[step..], b);
    }
  }

  /** Reading `raw` from the position reached after `prefix` lands on the position of
      `prefix + raw`, unless the cut splits a CRLF. */
  lemma {:induction false} AdvanceMatchesPositionOf(prefix: Text, raw: Text)
    requires !SplitsCrlf(prefix, raw)
    ensures Advance(PositionOf(prefix), raw) == PositionOf(prefix + raw)
  {
    FindNewlinesAppend(prefix, raw);
  }

  // ----- The loop ----------------------------------------------------------

  predicate IsCommentKind(k: Kind) { k == Comment || k == BadComment }

  /** The tokens one lexeme adds to the list: none for a comment that is ignored. */
  function Emit(l: Lexeme, at: Position, ignoreComments: bool): seq<Token>
  {
    if ignoreComments && IsCommentKind(l.kind) then [] else [Atom(l.kind, l.raw, l.value, l.unit, at.line, at.column)]
  }

  /** The tokens of `rest` read from position `at`: the loop as a recursive function. */
  function Scan(rest: Text, at: Position, ignoreComments: bool, matcher: Matcher): seq<Token>
    requires ValidMatcher(matcher)
    decreases |rest|
  {
    if rest == [] then []
    else
      var l := Lex(rest, matcher);
      Emit(l, at, ignoreComments) + Scan(rest[|l.raw|..], Advance(at, l.raw), ignoreComments, matcher)
  }

  /** Appending the next lexeme's tokens moves one step along `Scan`. */
  lemma {:induction false} ScanStep(before: seq<Token>, after: seq<Token>, rest: Text, at: Position, ignoreComments: bool,
                 matcher: Matcher, l: Lexeme, next: Text, moved: Position)
    requires |rest| > 0 && ValidMatcher(matcher)
    requires l == Lex(rest, matcher) && next == rest[|l.raw|..] && moved == Advance(at, l.raw)
    requires after == before + Emit(l, at, ignoreComments)
    ensures after + Scan(next, moved, ignoreComments, matcher) == before + Scan(rest, at, ignoreComments, matcher)
  {
  }

  /** The body of the loop up to the append: the token starting at `pos`. */
  method NextLexeme(source: Text, pos: nat, matcher: Matcher) returns (lexeme: Lexeme)
    requires pos < |source| && ValidMatcher(matcher)
    ensures lexeme == Lex(source[pos..], matcher)
  {
    var c := source[pos];
    if IsPunctuation(c) {
      lexeme := Lexeme(PunctuationKind(c), [c], TextValue([c]), None);
    } else {
      var found := matcher(source[pos..]);
      if found.Some? {
        var length := found.value.length;
        assert MatchFits(found.value, source[pos..]);
        assert source[pos..][..length] == source[pos..pos + length];
        lexeme := Decode(found.value.group, source[pos..pos + length], pos + length == |source|);
      } else {
        lexeme := Lexeme(Delim, [c], TextValue([c]), None);
      }
    }
  }

  /** The update of `line` and `column` at the end of the loop. */
  method AdvancePosition(line: int, column: int, raw: Text) returns (line': int, column': int)
    ensures Position(line', column') == Advance(Position(line, column), raw)
  {
    var newlines := FindNewlines(raw);
    if newlines.count > 0 {
      line' := line + newlines.count;
      column' := |raw| - newlines.lastEnd + 1;
    } else {
      line', column' := line, column + |raw|;
    }
  }

  /** `tokenize_flat` */
  method TokenizeFlat(source: Text, ignoreComments: bool, matcher: Matcher) returns (tokens: seq<Token>)
    requires ValidMatcher(matcher)
    ensures tokens == Scan(source, Start, ignoreComments, matcher)
    ensures !ignoreComments ==> ConcatCss(tokens) == source
  {
    tokens := [];
    var pos, line, column := 0, 1, 1;
    while pos < |source|
      invariant pos <= |source|
      invariant tokens + Scan(source[pos..], Position(line, column), ignoreComments, matcher)
             == Scan(source, Start, ignoreComments, matcher)
      decreases |source| - pos
    {
      var lexeme := NextLexeme(source, pos, matcher);
      ghost var rest, at, before := source[pos..], Position(line, column), tokens;
      if !(ignoreComments && IsCommentKind(lexeme.kind)) {
        tokens := tokens + [Atom(lexeme.kind, lexeme.raw, lexeme.value, lexeme.unit, line, column)];
      }
      pos := pos + |lexeme.raw|;
      line, column := AdvancePosition(line, column, lexeme.raw);
      ScanStep(before, tokens, rest, at, ignoreComments, matcher, lexeme, source[pos..], Position(line, column));
    }
    if !ignoreComments {
      ScanRoundTrip(source, Start, matcher);
    }
  }

  /** Lossless: with comments kept, the tokens' CSS put together is the source. */
  lemma {:induction false} ScanRoundTrip(rest: Text, at: Position, matcher: Matcher)
    requires ValidMatcher(matcher)
    ensures ConcatCss(Scan(rest, at, false, matcher)) == rest
    decreases |rest|
  {
    if rest != [] {
      var l := Lex(rest, matcher);
      var tail := Scan(rest[|l.raw|..], Advance(at, l.raw), false, matcher);
      ScanRoundTrip(rest[|l.raw|..], Advance(at, l.raw), matcher);
      ConcatCssAppend(Emit(l, at, false), tail);
      assert rest == l.raw + rest[|l.raw|..];
    }
  }

  function RemoveComments(ts: seq<Token>): seq<Token>
  {
    if ts == [] then []
    else (if IsCommentKind(ts[0].kind) then [] else [ts[0]]) + RemoveComments(ts[1..])
  }

  /** Ignoring comments drops exactly the COMMENT and BAD_COMMENT tokens and
      changes nothing else, the positions of the other tokens included. */
  lemma {:induction false} IgnoringComments(rest: Text, at: Position, matcher: Matcher)
    requires ValidMatcher(matcher)
    ensures Scan(rest, at, true, matcher) == RemoveComments(Scan(rest, at, false, matcher))
    decreases |rest|
  {
    if rest != [] {
      var l := Lex(rest, matcher);
      var kept := Scan(rest, at, false, matcher);
      IgnoringComments(rest[|l.raw|..], Advance(at, l.raw), matcher);
      assert kept[1..] == Scan(rest[|l.raw|..], Advance(at, l.raw), false, matcher);
    }
  }

  /** The regular expression never ends a token between `\r` and `\n`, and a
      `\r\n` is never left unmatched (whitespace takes it). */
  ghost predicate KeepsCrlf(matcher: Matcher)
  {
    forall rest: Text {:trigger matcher(rest)} :: |rest| >= 2 ==>
      match matcher(rest)
      case None => !(rest[0] == CR && rest[1] == LF)
      case Some(m) => !(1 <= m.length < |rest| && rest[m.length - 1] == CR && rest[m.length] == LF)
  }

  lemma {:induction false} LexKeepsCrlf(rest: Text, matcher: Matcher)
    requires |rest| > 0 && ValidMatcher(matcher) && KeepsCrlf(matcher)
    ensures var l := Lex(rest, matcher); !SplitsCrlf(l.raw, rest[|l.raw|..])
  {
    var l := Lex(rest, matcher);
    if |rest| >= 2 {
      var found := matcher(rest);
      if |l.raw| < |rest| {
        assert rest[|l.raw|..][0] == rest[|l.raw|];
      }
    }
  }

  /** Each token sits at the position of `prefix` followed by the CSS of the tokens before it. */
  ghost predicate PositionsFrom(prefix: Text, ts: seq<Token>)
    decreases |ts|
  {
    ts == [] ||
    (Position(ts[0].line, ts[0].column) == PositionOf(prefix) && PositionsFrom(prefix + AsCss(ts[0]), ts[1..]))
  }

  lemma {:induction false} ScanPositions(prefix: Text, rest: Text, matcher: Matcher)
    requires ValidMatcher(matcher) && KeepsCrlf(matcher)
    requires !SplitsCrlf(prefix, rest)
    ensures PositionsFrom(prefix, Scan(rest, PositionOf(prefix), false, matcher))
    decreases |rest|
  {
    if rest != [] {
      var l := Lex(rest, matcher);
      var next := rest[|l.raw|..];
      assert rest == l.raw + next;
      AdvanceMatchesPositionOf(prefix, l.raw);
      LexKeepsCrlf(rest, matcher);
      assert !SplitsCrlf(prefix + l.raw, next);
      ScanPositions(prefix + l.raw, next, matcher);
    }
  }

  lemma {:induction false} ConcatCssPrefix(ts: seq<Token>, k: nat)
    requires 0 < k <= |ts|
    ensures ConcatCss(ts[..k]) == AsCss(ts[0]) + ConcatCss(ts[1..][..k - 1])
  {
    assert ts[..k][1..] == ts[1..][..k - 1];
  }

  lemma {:induction false} PositionsFromIndexed(prefix: Text, ts: seq<Token>)
    requires PositionsFrom(prefix, ts)
    ensures forall k :: 0 <= k < |ts| ==>
              Position(ts[k].line, ts[k].column) == PositionOf(prefix + ConcatCss(ts[..k]))
    decreases |ts|
  {
    if ts != [] {
      var tail := ts[1..];
      PositionsFromIndexed(prefix + AsCss(ts[0]), tail);
      forall k | 0 <= k < |ts|
        ensures Position(ts[k].line, ts[k].column) == PositionOf(prefix + ConcatCss(ts[..k]))
      {
        if k == 0 {
          assert prefix + ConcatCss(ts[..0]) == prefix;
        } else {
          ConcatCssPrefix(ts, k);
          assert ts[k] == tail[k - 1];
          assert prefix + ConcatCss(ts[..k]) == (prefix + AsCss(ts[0])) + ConcatCss(tail[..k - 1]);
        }
      }
    }
  }

  /** Each token's line and column are those of the source text before it: line one
      plus the newlines read so far, column one plus the characters since the last
      newline. */
  lemma {:induction false} TokenPositions(source: Text, matcher: Matcher)
    requires ValidMatcher(matcher) && KeepsCrlf(matcher)
    ensures var ts := Scan(source, Start, false, matcher);
            forall k :: 0 <= k < |ts| ==>
              Position(ts[k].line, ts[k].column) == PositionOf(ConcatCss(ts[..k]))
  {
    assert PositionOf([]) == Start;
    ScanPositions([], source, matcher);
    var ts := Scan(source, Start, false, matcher);
    PositionsFromIndexed([], ts);
    forall k | 0 <= k < |ts| ensures [] + ConcatCss(ts[..k]) == ConcatCss(ts[..k]) { }
  }
}
