/** The core grammar parser (`CoreParser`): statements, at-rules, rulesets,
    declaration lists and declarations, with the token checks of the core
    grammar and recovery by skipping the offending rule or declaration.

    The parser reads a shared iterator of already grouped tokens. Here the
    iterator is a token list and an index: each reader takes the index of
    the first unread token and gives back the index after the last one it
    consumed, whether it succeeded or raised. Each reader is specified by a
    function of the unread suffix (`...Spec`), which a method with the
    source's loop is proved to compute.

    The methods a subclass overrides (`parse_at_rule` and `parse_declaration`)
    are function values in `Hooks`. */
module Core {
  import opened Chars
  import opened Results
  import opened TokenData
  import opened Parsing
  import opened Lists
  import opened Collect

  // ----- Errors and records ------------------------------------------------

  /** Where a token was checked: the `context` named in an "unexpected ... token
      in ..." message. Inside a FUNCTION, `(` or `[` it is the container's type. */
  datatype Context = InAtRuleHead | InSelector | InPropertyValue | InContainer(container: Kind)

  /** The message of a `ParseError`, one alternative per message the parsers raise. */
  datatype Reason =
    | MisplacedCharset
    | UnknownAtRule(context: Text, keyword: Text)
    | IncompleteAtRule
    | NoDeclarationBlock
    | ExpectedPropertyName(got: Kind)
    | ExpectedColonGot(got: Kind)
    | ExpectedColon
    | ExpectedPropertyValue
    | Unmatched(kind: Kind, inside: Context)
    | Unexpected(kind: Kind, inside: Context)
    // The CSS 2.1 parser's messages.
    | ExpectedValueBeforeImportant
    | InvalidPageSelector
    | UnknownPageAtRule(keyword: Text)

  /** `ParseError`: the position of the token (or rule) it is about, and why. */
  datatype ParseError = ParseError(line: int, column: int, reason: Reason)

  function ErrorAt(t: Token, reason: Reason): (e: ParseError)
    ensures e.line == t.line && e.column == t.column && e.reason == reason
  {
    ParseError(t.line, t.column, reason)
  }

  /** An unparsed at-rule: its lower-cased keyword, its head, its `{` block if any. */
  datatype AtRule = AtRule(atKeyword: Text, head: seq<Token>, body: Option<Token>, line: int, column: int)

  /** A declaration: its lower-cased property name and its VALUES container. */
  datatype Declaration = Declaration(name: Text, value: Token, line: int, column: int)

  /** A ruleset: its SELECTOR container and the declarations parsed from its block. */
  datatype RuleSet<D> = RuleSet(selector: Token, declarations: seq<D>, line: int, column: int)

  /** A statement: what the at-rule hook made of an at-rule, or a ruleset. */
  datatype Statement<A, D> = AtRuleStatement(rule: A) | RuleSetStatement(ruleset: RuleSet<D>)

  /** The two overridable steps: parsing an at-rule in a context, and parsing one
      declaration (a non-empty token list). */
  datatype Hooks<A, D> = Hooks(atRule: (AtRule, Text) -> Result<A, ParseError>,
                               declaration: Part -> Result<D, ParseError>)

  // ----- The `any` and `block` productions ---------------------------------

  /** The token types `any` accepts as they are. */
  predicate IsAnyAtom(k: Kind)
  {
    k in {S, Ident, Dimension, Percentage, Number, Integer, Uri, Delim, String, Hash, Colon, UnicodeRange}
  }

  /** The containers whose content is checked as `any`. */
  predicate IsNesting(k: Kind) { k == Function || k == LeftParen || k == LeftBracket }

  predicate IsClosing(k: Kind) { k == RightBrace || k == RightParen || k == RightBracket }

  /** `validate_any`: the first offending token, depth first, if any. A
      FUNCTION, `(` or `[` is always a container in grouped input; the atom
      case, where the source would fail on `token.content`, never arises. */
  function ValidateAny(t: Token, context: Context): (r: Option<ParseError>)
    ensures r.Some? ==> r.value.reason.Unmatched? || r.value.reason.Unexpected?
    decreases t, 1
  {
    if IsNesting(t.kind) then (if t.Atom? then None else FirstInvalid(t.content, InContainer(t.kind)))
    else if IsAnyAtom(t.kind) then None
    else if IsClosing(t.kind) then Some(ErrorAt(t, Unmatched(t.kind, context)))
    else Some(ErrorAt(t, Unexpected(t.kind, context)))
  }

  /** `validate_any` on each token of a list in turn. */
  function FirstInvalid(ts: seq<Token>, context: Context): (r: Option<ParseError>)
    ensures r.Some? ==> r.value.reason.Unmatched? || r.value.reason.Unexpected?
    decreases ts, 0
  {
    if ts == [] then None
    else
      match ValidateAny(ts[0], context)
      case Some(e) => Some(e)
      case None => FirstInvalid(ts[1..], context)
  }

  /** `validate_block`: `;` and ATKEYWORD are allowed, `{` blocks are entered. */
  function ValidateBlock(ts: seq<Token>, context: Context): (r: Option<ParseError>)
    ensures r.Some? ==> r.value.reason.Unmatched? || r.value.reason.Unexpected?
    decreases ts
  {
    if ts == [] then None
    else
      var t := ts[0];
      var here := if t.kind == LeftBrace then (if t.Atom? then None else ValidateBlock(t.content, context))
                  else if t.kind == Semicolon || t.kind == AtKeyword then None
                  else ValidateAny(t, context);
      if here.Some? then here else ValidateBlock(ts[1..], context)
  }

  /** The `any` production, stated as a property of the token tree. */
  predicate AnyOk(t: Token)
    decreases t
  {
    if IsNesting(t.kind) then t.Atom? || forall i :: 0 <= i < |t.content| ==> AnyOk(t.content[i])
    else IsAnyAtom(t.kind)
  }

  /** The `block` production's content, stated as a property of the token tree. */
  predicate BlockOk(ts: seq<Token>)
    decreases ts
  {
    forall i :: 0 <= i < |ts| ==>
      if ts[i].kind == LeftBrace then ts[i].Atom? || BlockOk(ts[i].content)
      else ts[i].kind == Semicolon || ts[i].kind == AtKeyword || AnyOk(ts[i])
  }

  /** `validate_any` raises exactly when the token is not `any`; the error names
      a token that is neither accepted nor nested, as "unmatched" exactly when
      it is a closing `}`, `)` or `]`. */
  lemma {:induction false} ValidateAnyAccepts(t: Token, context: Context)
    ensures ValidateAny(t, context).None? <==> AnyOk(t)
    ensures ValidateAny(t, context).Some? ==>
              var reason := ValidateAny(t, context).value.reason;
              !IsAnyAtom(reason.kind) && !IsNesting(reason.kind)
              && (reason.Unmatched? <==> IsClosing(reason.kind))
    decreases t, 1
  {
    if IsNesting(t.kind) && !t.Atom? {
      FirstInvalidAccepts(t.content, InContainer(t.kind));
    }
  }

  lemma {:induction false} FirstInvalidAccepts(ts: seq<Token>, context: Context)
    ensures FirstInvalid(ts, context).None? <==> forall i :: 0 <= i < |ts| ==> AnyOk(ts[i])
    ensures FirstInvalid(ts, context).Some? ==>
              var reason := FirstInvalid(ts, context).value.reason;
              !IsAnyAtom(reason.kind) && !IsNesting(reason.kind)
              && (reason.Unmatched? <==> IsClosing(reason.kind))
    decreases ts, 0
  {
    if ts != [] {
      ValidateAnyAccepts(ts[0], context);
      FirstInvalidAccepts(ts[1..], context);
      assert forall i :: 1 <= i < |ts| ==> ts[i] == ts[1..][i - 1];
    }
  }

  /** `validate_block` raises exactly when the list is not block content. */
  lemma {:induction false} ValidateBlockAccepts(ts: seq<Token>, context: Context)
    ensures ValidateBlock(ts, context).None? <==> BlockOk(ts)
    decreases ts
  {
    if ts != [] {
      var t := ts[0];
      if t.kind == LeftBrace && !t.Atom? {
        ValidateBlockAccepts(t.content, context);
      } else if t.kind != LeftBrace && t.kind != Semicolon && t.kind != AtKeyword {
        ValidateAnyAccepts(t, context);
      }
      ValidateBlockAccepts(ts[1..], context);
      assert forall i :: 1 <= i < |ts| ==> ts[i] == ts[1..][i - 1];
    }
  }

  /** The `for head_token in head: validate_any(...)` loops. */
  method ValidateAll(ts: seq<Token>, context: Context) returns (error: Option<ParseError>)
    ensures error == FirstInvalid(ts, context)
  {
    for k := 0 to |ts|
      invariant FirstInvalid(ts[k..], context) == FirstInvalid(ts, context)
    {
      error := ValidateAny(ts[k], context);
      if error.Some? {
        return;
      }
      assert ts[k..][1..] == ts[k + 1..];
    }
    error := None;
  }

  // ----- At-rules -----------------------------------------------------------

  predicate IsS(t: Token) { t.kind == S }

  /** `{` or `;`: where an at-rule's head ends. */
  predicate EndsAtRule(t: Token) { t.kind == LeftBrace || t.kind == Semicolon }

  /** The at-rule read once its head and its final `{` or `;` are known. */
  function AtRuleOf(keyword: Token, head: seq<Token>, terminator: Token): Result<AtRule, ParseError>
  {
    match FirstInvalid(head, InAtRuleHead)
    case Some(e) => Err(e)
    case None =>
      var body := if terminator.kind == LeftBrace then Some(terminator) else None;
      Ok(AtRule(Lower(ValueText(keyword)), head, body, keyword.line, keyword.column))
  }

  /** `read_at_rule` on the unread tokens `rest` after the ATKEYWORD `keyword`:
      the at-rule or the error, and how many tokens of `rest` were consumed. */
  function ReadAtRuleSpec(keyword: Token, rest: seq<Token>): (r: (Result<AtRule, ParseError>, nat))
    ensures r.1 <= |rest|
  {
    var k := FindFirst(rest, EndsAtRule);
    if k == |rest| then
      (Err(ErrorAt(if rest == [] then keyword else rest[|rest| - 1], IncompleteAtRule)), |rest|)
    else
      (AtRuleOf(keyword, DropWhileEnd(DropWhile(rest[..k], IsS), IsS), rest[k]), k + 1)
  }

  /** The rule read when its first `{` or `;` is at `rest[k]`. */
  lemma {:induction false} ReadAtRuleAt(keyword: Token, rest: seq<Token>, k: nat)
    requires k < |rest| && EndsAtRule(rest[k])
    requires forall j :: 0 <= j < k ==> !EndsAtRule(rest[j])
    ensures ReadAtRuleSpec(keyword, rest) == (AtRuleOf(keyword, DropWhileEnd(DropWhile(rest[..k], IsS), IsS), rest[k]), k + 1)
  {
    FindFirstIs(rest, EndsAtRule, k);
  }

  /** Without a `{` or `;` the whole input is consumed and the rule is
      "incomplete", reported at the last token read; otherwise the rule consumes
      everything up to its first `{` or `;` and that token. */
  lemma {:induction false} ReadAtRuleExtent(keyword: Token, rest: seq<Token>)
    ensures var (r, n) := ReadAtRuleSpec(keyword, rest);
            && (r.Err? && r.error.reason == IncompleteAtRule <==> forall i :: 0 <= i < |rest| ==> !EndsAtRule(rest[i]))
            && (r.Err? && r.error.reason == IncompleteAtRule ==>
                  n == |rest| && r.error == ErrorAt(if rest == [] then keyword else rest[|rest| - 1], IncompleteAtRule))
            && (r.Ok? ==> 0 < n && EndsAtRule(rest[n - 1]) && forall i :: 0 <= i < n - 1 ==> !EndsAtRule(rest[i]))
  {
    FindFirstShape(rest, EndsAtRule);
  }

  /** An accepted rule's head is the tokens before its `{` or `;`, trimmed. */
  lemma {:induction false} ReadAtRuleTrims(keyword: Token, rest: seq<Token>)
    ensures var (r, n) := ReadAtRuleSpec(keyword, rest);
            r.Ok? ==> 0 < n <= |rest| && r.value.head == DropWhileEnd(DropWhile(rest[..n - 1], IsS), IsS)
  {
    var k := FindFirst(rest, EndsAtRule);
    FindFirstShape(rest, EndsAtRule);
    if k < |rest| {
      ReadAtRuleAt(keyword, rest, k);
      AtRuleOfHead(keyword, DropWhileEnd(DropWhile(rest[..k], IsS), IsS), rest[k]);
      assert rest[..k + 1 - 1] == rest[..k];
    }
  }

  /** The head of an accepted at-rule is the head it was read from. */
  lemma {:induction false} AtRuleOfHead(keyword: Token, head: seq<Token>, terminator: Token)
    ensures var r := AtRuleOf(keyword, head, terminator);
            r.Ok? ==> r.value.head == head
  {
  }

  /** A rule's head is what lies between the keyword and the `{` or `;`,
      without white space at either end. */
  lemma {:induction false} ReadAtRuleHead(keyword: Token, rest: seq<Token>)
    ensures var (r, n) := ReadAtRuleSpec(keyword, rest);
            r.Ok? ==>
              var head := r.value.head;
              && RunOf(head, rest[..n - 1], IsS)
              && (head != [] ==> !IsS(head[0]) && !IsS(head[|head| - 1]))
  {
    ReadAtRuleTrims(keyword, rest);
    var (r, n) := ReadAtRuleSpec(keyword, rest);
    if r.Ok? {
      Trimmed(rest[..n - 1], IsS);
    }
  }

  /** Every token of an accepted head is `any`; the rule has a body exactly when
      it ended with `{`, and the body is that block; its keyword has no
      upper-case letter. */
  lemma {:induction false} ReadAtRuleBody(keyword: Token, rest: seq<Token>)
    ensures var (r, n) := ReadAtRuleSpec(keyword, rest);
            r.Ok? ==>
              && (forall i :: 0 <= i < |r.value.head| ==> AnyOk(r.value.head[i]))
              && (r.value.body.Some? <==> rest[n - 1].kind == LeftBrace)
              && (r.value.body.Some? ==> r.value.body.value == rest[n - 1])
              && NoUpper(r.value.atKeyword)
  {
    var k := FindFirst(rest, EndsAtRule);
    FindFirstShape(rest, EndsAtRule);
    if k < |rest| {
      ReadAtRuleAt(keyword, rest, k);
      AtRuleOfShape(keyword, DropWhileEnd(DropWhile(rest[..k], IsS), IsS), rest[k]);
    }
  }

  /** An accepted at-rule: every head token passes `any`, the body is the
      terminator exactly when it is a `{`, and the keyword is lower-case. */
  lemma {:induction false} AtRuleOfShape(keyword: Token, head: seq<Token>, terminator: Token)
    ensures var r := AtRuleOf(keyword, head, terminator);
            r.Ok? ==>
              && (forall i :: 0 <= i < |r.value.head| ==> AnyOk(r.value.head[i]))
              && (r.value.body.Some? <==> terminator.kind == LeftBrace)
              && (r.value.body.Some? ==> r.value.body.value == terminator)
              && NoUpper(r.value.atKeyword)
  {
    FirstInvalidAccepts(head, InAtRuleHead);
  }

  /** Whatever follows an at-rule's `{` or `;` does not change how it is read:
      an error inside it cannot spill into what comes after. */
  lemma {:induction false} ReadAtRulePrefix(keyword: Token, a: seq<Token>, b: seq<Token>)
    requires FindFirst(a, EndsAtRule) < |a|
    ensures ReadAtRuleSpec(keyword, a + b) == ReadAtRuleSpec(keyword, a)
  {
    var k := FindFirst(a, EndsAtRule);
    FindFirstShape(a, EndsAtRule);
    PrefixOfAppend(a, b, k);
    ReadAtRuleAt(keyword, a, k);
    ReadAtRuleAt(keyword, a + b, k);
  }

  /** Where the loop of `read_at_rule` stops at a `{` or `;`. */
  lemma {:induction false} ReadAtRuleStops(keyword: Token, tokens: seq<Token>, start: nat, end: nat)
    requires start < end <= |tokens|
    requires forall j :: start <= j < end - 1 ==> !EndsAtRule(tokens[j])
    requires EndsAtRule(tokens[end - 1])
    ensures ReadAtRuleSpec(keyword, tokens[start..])
         == (AtRuleOf(keyword, DropWhileEnd(DropWhile(tokens[start..end - 1], IsS), IsS), tokens[end - 1]), end - start)
  {
    var rest := tokens[start..];
    assert rest[..end - 1 - start] == tokens[start..end - 1];
    ReadAtRuleAt(keyword, rest, end - 1 - start);
  }

  /** Where the loop of `read_at_rule` runs out of tokens. */
  lemma {:induction false} ReadAtRuleRunsOut(keyword: Token, tokens: seq<Token>, start: nat, last: Token)
    requires start <= |tokens|
    requires forall j :: start <= j < |tokens| ==> !EndsAtRule(tokens[j])
    requires last == if start == |tokens| then keyword else tokens[|tokens| - 1]
    ensures ReadAtRuleSpec(keyword, tokens[start..]) == (Err(ErrorAt(last, IncompleteAtRule)), |tokens| - start)
  {
    FindFirstIs(tokens[start..], EndsAtRule, |tokens| - start);
  }

  /** One more token read into a list whose leading white space is skipped. */
  lemma {:induction false} SkipStep(tokens: seq<Token>, start: nat, end: nat)
    requires start < end <= |tokens|
    ensures DropWhile(tokens[start..end], IsS)
         == if DropWhile(tokens[start..end - 1], IsS) == [] && IsS(tokens[end - 1]) then []
            else DropWhile(tokens[start..end - 1], IsS) + [tokens[end - 1]]
  {
    assert tokens[start..end] == tokens[start..end - 1] + [tokens[end - 1]];
    DropWhileAppend(tokens[start..end - 1], [tokens[end - 1]], IsS);
  }

  /** `while head and head[-1].type == 'S': head.pop()` */
  method PopTrailingS(ts: seq<Token>) returns (r: seq<Token>)
    ensures r == DropWhileEnd(ts, IsS)
  {
    r := ts;
    while r != [] && IsS(r[|r| - 1])
      invariant DropWhileEnd(r, IsS) == DropWhileEnd(ts, IsS)
    {
      r := r[..|r| - 1];
    }
  }

  /** The end of `read_at_rule` once the `{` or `;` is read: trailing white space
      is removed from the head, which is then checked. */
  method FinishAtRule(keyword: Token, atKeyword: Text, head: seq<Token>, token: Token)
    returns (result: Result<AtRule, ParseError>)
    requires atKeyword == Lower(ValueText(keyword))
    ensures result == AtRuleOf(keyword, DropWhileEnd(head, IsS), token)
  {
    var trimmed := PopTrailingS(head);
    var error := ValidateAll(trimmed, InAtRuleHead);
    if error.Some? {
      result := Err(error.value);
    } else {
      var body := if token.kind == LeftBrace then Some(token) else None;
      result := Ok(AtRule(atKeyword, trimmed, body, keyword.line, keyword.column));
    }
  }

  /** The `{` or `;` at `tokens[end - 1]` ends the at-rule read from `start`. */
  method StopAtRule(keyword: Token, atKeyword: Text, tokens: seq<Token>, start: nat, end: nat, head: seq<Token>)
    returns (result: Result<AtRule, ParseError>)
    requires atKeyword == Lower(ValueText(keyword))
    requires start < end <= |tokens| && EndsAtRule(tokens[end - 1])
    requires forall j :: start <= j < end - 1 ==> !EndsAtRule(tokens[j])
    requires head == DropWhile(tokens[start..end - 1], IsS)
    ensures (result, end - start) == ReadAtRuleSpec(keyword, tokens[start..])
  {
    ReadAtRuleStops(keyword, tokens, start, end);
    result := FinishAtRule(keyword, atKeyword, head, tokens[end - 1]);
  }

  /** The loop of `read_at_rule` up to its first `{` or `;`: `stop` is where
      that token is, or the end of the tokens; `head` is what was read before
      it, white space just after the at-keyword skipped. */
  method ScanAtRule(tokens: seq<Token>, start: nat) returns (stop: nat, head: seq<Token>)
    requires start <= |tokens|
    ensures start <= stop <= |tokens|
    ensures stop < |tokens| ==> EndsAtRule(tokens[stop])
    ensures forall j :: start <= j < stop ==> !EndsAtRule(tokens[j])
    ensures head == DropWhile(tokens[start..stop], IsS)
  {
    head := [];
    stop := start;
    while stop < |tokens| && !EndsAtRule(tokens[stop])
      invariant start <= stop <= |tokens|
      invariant forall j :: start <= j < stop ==> !EndsAtRule(tokens[j])
      invariant head == DropWhile(tokens[start..stop], IsS)
    {
      head := AddHeadToken(tokens, start, stop, head);
      NoneBeforeNext(tokens, start, stop, EndsAtRule);
      stop := stop + 1;
    }
  }

  /** `elif head or token.type != 'S': head.append(token)`: white space just
      after the at-keyword is skipped. */
  method AddHeadToken(tokens: seq<Token>, start: nat, i: nat, head: seq<Token>) returns (head': seq<Token>)
    requires start <= i < |tokens|
    requires head == DropWhile(tokens[start..i], IsS)
    ensures head' == DropWhile(tokens[start..i + 1], IsS)
  {
    var token := tokens[i];
    head' := head;
    if head != [] || !IsS(token) {
      head' := head + [token];
    }
    SkipStep(tokens, start, i + 1);
  }

  /** `read_at_rule`: reads from `tokens[start..]`, returns where it stopped. */
  method ReadAtRule(keyword: Token, tokens: seq<Token>, start: nat) returns (result: Result<AtRule, ParseError>, end: nat)
    requires start <= |tokens|
    ensures start <= end <= |tokens|
    ensures (result, end - start) == ReadAtRuleSpec(keyword, tokens[start..])
  {
    var atKeyword := Lower(ValueText(keyword));
    var stop, head := ScanAtRule(tokens, start);
    if stop < |tokens| {
      end := stop + 1;
      result := StopAtRule(keyword, atKeyword, tokens, start, end, head);
    } else {
      end := stop;
      var token := if stop == start then keyword else tokens[stop - 1];
      ReadAtRuleRunsOut(keyword, tokens, start, token);
      result := Err(ErrorAt(token, IncompleteAtRule));
    }
  }

  /** `CoreParser.parse_at_rule`: the core grammar knows no at-rule. */
  function CoreParseAtRule<A>(rule: AtRule, context: Text): (r: Result<A, ParseError>)
    ensures r.Err? && r.error.line == rule.line && r.error.column == rule.column
    ensures r.error.reason == MisplacedCharset <==> rule.atKeyword == Lit("@charset")
    ensures r.error.reason != MisplacedCharset ==> r.error.reason == UnknownAtRule(context, rule.atKeyword)
  {
    if rule.atKeyword == Lit("@charset") then Err(ParseError(rule.line, rule.column, MisplacedCharset))
    else Err(ParseError(rule.line, rule.column, UnknownAtRule(context, rule.atKeyword)))
  }

  // ----- Declaration lists --------------------------------------------------

  /** A non-empty token list: what `parse_declaration` is given. */
  type Part = ts: seq<Token> | |ts| > 0 witness [Atom(S, [], TextValue([]), None, 1, 1)]

  predicate IsSemicolon(t: Token) { t.kind == Semicolon }

  predicate NoSemicolon(ts: seq<Token>)
  {
    forall i :: 0 <= i < |ts| ==> !IsSemicolon(ts[i])
  }

  /** Each piece without its leading white space, empty ones dropped. */
  function Nonblank(ps: seq<seq<Token>>): seq<Part>
  {
    if ps == [] then []
    else
      var part := DropWhile(ps[|ps| - 1], IsS);
      Nonblank(ps[..|ps| - 1]) + if part == [] then [] else [part]
  }

  /** The declarations of a list: what lies between its `;` tokens, without
      leading white space, empty ones dropped. */
  function DeclarationParts(ts: seq<Token>): seq<Part>
  {
    Nonblank(Pieces(ts, IsSemicolon))
  }

  /** `parse_declaration` applied to each part. */
  function Outcomes<D>(parts: seq<Part>, declaration: Part -> Result<D, ParseError>): seq<Result<D, ParseError>>
  {
    if parts == [] then []
    else Outcomes(parts[..|parts| - 1], declaration) + [declaration(parts[|parts| - 1])]
  }

  /** The successes, in order. */
  function Oks<D>(outs: seq<Result<D, ParseError>>): seq<D>
  {
    if outs == [] then []
    else Oks(outs[..|outs| - 1]) + if outs[|outs| - 1].Ok? then [outs[|outs| - 1].value] else []
  }

  /** The errors, in order. */
  function Errs<D>(outs: seq<Result<D, ParseError>>): seq<ParseError>
  {
    if outs == [] then []
    else Errs(outs[..|outs| - 1]) + if outs[|outs| - 1].Err? then [outs[|outs| - 1].error] else []
  }

  /** `parse_declaration_list`: the declarations parsed and the errors raised. */
  function DeclarationListSpec<D>(ts: seq<Token>, declaration: Part -> Result<D, ParseError>): (seq<D>, seq<ParseError>)
  {
    var outs := Outcomes(DeclarationParts(ts), declaration);
    (Oks(outs), Errs(outs))
  }

  lemma {:induction false} OutcomesCount<D>(parts: seq<Part>, declaration: Part -> Result<D, ParseError>)
    ensures |Outcomes(parts, declaration)| == |parts|
    ensures forall i :: 0 <= i < |parts| ==> Outcomes(parts, declaration)[i] == declaration(parts[i])
  {
    if parts != [] {
      OutcomesCount(parts[..|parts| - 1], declaration);
    }
  }

  lemma {:induction false} OksErrsCount<D>(outs: seq<Result<D, ParseError>>)
    ensures |Oks(outs)| + |Errs(outs)| == |outs|
  {
    if outs != [] {
      OksErrsCount(outs[..|outs| - 1]);
    }
  }

  /** Every non-empty declaration gives exactly one declaration or one error. */
  lemma {:induction false} DeclarationListCount<D>(ts: seq<Token>, declaration: Part -> Result<D, ParseError>)
    ensures var (decls, errors) := DeclarationListSpec(ts, declaration);
            |decls| + |errors| == |DeclarationParts(ts)|
  {
    OutcomesCount(DeclarationParts(ts), declaration);
    OksErrsCount(Outcomes(DeclarationParts(ts), declaration));
  }

  /** Each part starts with a token other than white space and holds no `;`. */
  predicate WellFormedParts(parts: seq<Part>)
  {
    forall i :: 0 <= i < |parts| ==> !IsS(parts[i][0]) && NoSemicolon(parts[i])
  }

  lemma {:induction false} NonblankShape(ps: seq<seq<Token>>)
    requires NoSeparatorIn(ps, IsSemicolon)
    ensures WellFormedParts(Nonblank(ps))
  {
    if ps != [] {
      var init := ps[..|ps| - 1];
      assert NoSeparatorIn(init, IsSemicolon) by {
        forall i, j | 0 <= i < |init| && 0 <= j < |init[i]| ensures !IsSemicolon(init[i][j]) {
          assert init[i] == ps[i];
        }
      }
      NonblankShape(init);
      var last := ps[|ps| - 1];
      DropWhileShape(last, IsS);
      var part := DropWhile(last, IsS);
      forall j | 0 <= j < |part| ensures !IsSemicolon(part[j]) {
        assert part[j] == last[|last| - |part| + j];
      }
      var before := Nonblank(init);
      var parts := Nonblank(ps);
      assert parts == before + if part == [] then [] else [part];
      forall i | 0 <= i < |parts| ensures !IsS(parts[i][0]) && NoSemicolon(parts[i]) {
        if i < |before| {
          assert parts[i] == before[i];
        } else {
          assert parts[i] == part;
        }
      }
    }
  }

  /** Every part handed to `parse_declaration` starts with a token other than
      white space and holds no `;`. */
  lemma {:induction false} DeclarationPartsShape(ts: seq<Token>)
    ensures WellFormedParts(DeclarationParts(ts))
  {
    PiecesHaveNoSeparator(ts, IsSemicolon);
    NonblankShape(Pieces(ts, IsSemicolon));
  }

  /** What the first loop of `parse_declaration_list` has built after reading
      `tokens[..i]`: the finished parts, and the part being read. */
  ghost predicate SplitSoFar(tokens: seq<Token>, i: nat, parts: seq<Part>, thisPart: seq<Token>)
    requires i <= |tokens|
  {
    var ps := Pieces(tokens[..i], IsSemicolon);
    parts == Nonblank(ps[..|ps| - 1]) && thisPart == DropWhile(ps[|ps| - 1], IsS)
  }

  /** The first loop of `parse_declaration_list`: split at `;`, skipping white
      space at the start of each part and dropping empty parts. */
  method SplitDeclarations(tokens: seq<Token>) returns (parts: seq<Part>)
    ensures parts == DeclarationParts(tokens)
  {
    parts := [];
    var thisPart: seq<Token> := [];
    for i := 0 to |tokens|
      invariant SplitSoFar(tokens, i, parts, thisPart)
    {
      parts, thisPart := SplitToken(tokens, i, parts, thisPart);
    }
    if thisPart != [] {
      parts := parts + [thisPart];
    }
    assert tokens[..|tokens|] == tokens;
  }

  /** One token of the first loop: a `;` ends the part being read, kept if it
      is not empty; white space is skipped at the start of a part. */
  method SplitToken(tokens: seq<Token>, i: nat, parts: seq<Part>, thisPart: seq<Token>)
    returns (parts': seq<Part>, thisPart': seq<Token>)
    requires i < |tokens| && SplitSoFar(tokens, i, parts, thisPart)
    ensures SplitSoFar(tokens, i + 1, parts', thisPart')
  {
    SplitStep(tokens, i);
    parts', thisPart' := parts, thisPart;
    var token := tokens[i];
    if token.kind == Semicolon {
      if thisPart != [] {
        parts' := parts + [thisPart];
      }
      thisPart' := [];
    } else if thisPart != [] || token.kind != S {
      thisPart' := thisPart + [token];
    }
  }

  /** The second loop of `parse_declaration_list`: each part parsed, an error
      recorded and the part skipped when it raises. */
  method ParseParts<D>(parts: seq<Part>, declaration: Part -> Result<D, ParseError>)
    returns (declarations: seq<D>, errors: seq<ParseError>)
    ensures declarations == Oks(Outcomes(parts, declaration))
    ensures errors == Errs(Outcomes(parts, declaration))
  {
    declarations, errors := [], [];
    for k := 0 to |parts|
      invariant declarations == Oks(Outcomes(parts[..k], declaration))
      invariant errors == Errs(Outcomes(parts[..k], declaration))
    {
      assert parts[..k + 1][..k] == parts[..k];
      var outcome := declaration(parts[k]);
      assert Outcomes(parts[..k + 1], declaration) == Outcomes(parts[..k], declaration) + [outcome];
      if outcome.Ok? {
        declarations := declarations + [outcome.value];
      } else {
        errors := errors + [outcome.error];
      }
    }
    assert parts[..|parts|] == parts;
  }

  /** `parse_declaration_list`. */
  method ParseDeclarationList<D>(tokens: seq<Token>, declaration: Part -> Result<D, ParseError>)
    returns (declarations: seq<D>, errors: seq<ParseError>)
    ensures (declarations, errors) == DeclarationListSpec(tokens, declaration)
  {
    var parts := SplitDeclarations(tokens);
    declarations, errors := ParseParts(parts, declaration);
  }

  /** One token of the declaration list read: how the pieces and the part being
      built change. */
  lemma {:induction false} SplitStep(tokens: seq<Token>, i: nat)
    requires i < |tokens|
    ensures var ps, qs := Pieces(tokens[..i], IsSemicolon), Pieces(tokens[..i + 1], IsSemicolon);
            var last := DropWhile(ps[|ps| - 1], IsS);
            if IsSemicolon(tokens[i]) then
              Nonblank(qs[..|qs| - 1]) == Nonblank(ps[..|ps| - 1]) + (if last == [] then [] else [last])
              && DropWhile(qs[|qs| - 1], IsS) == []
            else
              Nonblank(qs[..|qs| - 1]) == Nonblank(ps[..|ps| - 1])
              && DropWhile(qs[|qs| - 1], IsS)
                 == if last == [] && IsS(tokens[i]) then [] else last + [tokens[i]]
  {
    var ps, qs := Pieces(tokens[..i], IsSemicolon), Pieces(tokens[..i + 1], IsSemicolon);
    PiecesSnoc(tokens, i);
    if IsSemicolon(tokens[i]) {
      assert qs[..|qs| - 1] == ps;
    } else {
      assert qs[..|qs| - 1] == ps[..|ps| - 1];
      DropWhileAppend(ps[|ps| - 1], [tokens[i]], IsS);
    }
  }

  /** The pieces after one more token: a `;` opens an empty piece, any other
      token joins the last piece. */
  lemma {:induction false} PiecesSnoc(tokens: seq<Token>, i: nat)
    requires i < |tokens|
    ensures var ps, qs := Pieces(tokens[..i], IsSemicolon), Pieces(tokens[..i + 1], IsSemicolon);
            qs == if IsSemicolon(tokens[i]) then ps + [[]] else ps[..|ps| - 1] + [ps[|ps| - 1] + [tokens[i]]]
  {
    assert tokens[..i + 1][..i] == tokens[..i];
  }

  // ----- Rulesets -----------------------------------------------------------

  predicate IsLeftBrace(t: Token) { t.kind == LeftBrace }

  /** The ruleset read once its selector tokens and its `{` block are known. */
  function RulesetOf<D>(first: Token, parts: seq<Token>, block: Token, declaration: Part -> Result<D, ParseError>)
    : Result<(RuleSet<D>, seq<ParseError>), ParseError>
  {
    match FirstInvalid(parts, InSelector)
    case Some(e) => Err(e)
    case None =>
      var start := if parts != [] then parts[0] else block;
      var selector := Container(Selector, [], [], parts, start.line, start.column);
      var (declarations, errors) := DeclarationListSpec(ContentOf(block), declaration);
      Ok((RuleSet(selector, declarations, first.line, first.column), errors))
  }

  /** `parse_ruleset` on `first` and the unread tokens `rest`: the ruleset with
      the errors recovered in its declarations, or the error that skips it; and
      how many tokens of `rest` were consumed. */
  function RulesetSpec<D>(first: Token, rest: seq<Token>, declaration: Part -> Result<D, ParseError>)
    : (r: (Result<(RuleSet<D>, seq<ParseError>), ParseError>, nat))
    ensures r.1 <= |rest|
  {
    var stream := [first] + rest;
    var k := FindFirst(stream, IsLeftBrace);
    if k == |stream| then (Err(ErrorAt(stream[|stream| - 1], NoDeclarationBlock)), |rest|)
    else (RulesetOf(first, stream[..k], stream[k], declaration), k)
  }

  /** The ruleset read when the first `{` block of `[first] + rest` is at `k`. */
  lemma {:induction false} RulesetAt<D>(first: Token, rest: seq<Token>, k: nat, declaration: Part -> Result<D, ParseError>)
    requires var stream := [first] + rest;
             k < |stream| && IsLeftBrace(stream[k]) && forall i :: 0 <= i < k ==> !IsLeftBrace(stream[i])
    ensures var stream := [first] + rest;
            RulesetSpec(first, rest, declaration) == (RulesetOf(first, stream[..k], stream[k], declaration), k)
  {
    FindFirstIs([first] + rest, IsLeftBrace, k);
  }

  /** An accepted ruleset: its selector holds the tokens before the block, all
      of them `any`, placed at the first of them (or at the block when there is
      none); the ruleset is placed at its first token. */
  lemma {:induction false} RulesetOfShape<D>(first: Token, parts: seq<Token>, block: Token, declaration: Part -> Result<D, ParseError>)
    requires parts != [] ==> parts[0] == first
    requires parts == [] ==> block == first
    ensures var r := RulesetOf(first, parts, block, declaration);
            r.Ok? ==>
              && r.value.0.selector == Container(Selector, [], [], parts, first.line, first.column)
              && (forall i :: 0 <= i < |parts| ==> AnyOk(parts[i]))
              && r.value.0.line == first.line && r.value.0.column == first.column
  {
    FirstInvalidAccepts(parts, InSelector);
  }

  /** A ruleset consumes everything up to and including the first `{` block;
      without one, everything, and the error is "no declaration block",
      reported at the last token read. */
  lemma {:induction false} RulesetExtent<D>(first: Token, rest: seq<Token>, declaration: Part -> Result<D, ParseError>)
    ensures var (r, n) := RulesetSpec(first, rest, declaration);
            var stream := [first] + rest;
            && ((r.Err? && r.error.reason == NoDeclarationBlock) <==> forall i :: 0 <= i < |stream| ==> !IsLeftBrace(stream[i]))
            && (r.Err? && r.error.reason == NoDeclarationBlock ==>
                  n == |rest| && r.error == ErrorAt(stream[|stream| - 1], NoDeclarationBlock))
            && (r.Ok? ==> IsLeftBrace(stream[n]) && forall i :: 0 <= i < n ==> !IsLeftBrace(stream[i]))
  {
    var stream := [first] + rest;
    var k := FindFirst(stream, IsLeftBrace);
    FindFirstShape(stream, IsLeftBrace);
    if k < |stream| {
      RulesetAt(first, rest, k, declaration);
      RulesetOfError(first, stream[..k], stream[k], declaration);
    }
  }

  /** An accepted ruleset's selector is everything before the block, every
      selector token is `any`, and the ruleset is placed at its first token. */
  lemma {:induction false} RulesetSelector<D>(first: Token, rest: seq<Token>, declaration: Part -> Result<D, ParseError>)
    ensures var (r, n) := RulesetSpec(first, rest, declaration);
            var stream := [first] + rest;
            r.Ok? ==>
              && n < |stream|
              && r.value.0.selector == Container(Selector, [], [], stream[..n], first.line, first.column)
              && (forall i :: 0 <= i < n ==> AnyOk(stream[i]))
              && r.value.0.line == first.line && r.value.0.column == first.column
  {
    var stream := [first] + rest;
    var k := FindFirst(stream, IsLeftBrace);
    FindFirstShape(stream, IsLeftBrace);
    if k < |stream| {
      var parts := stream[..k];
      RulesetAt(first, rest, k, declaration);
      RulesetOfShape(first, parts, stream[k], declaration);
      forall i | 0 <= i < k ensures stream[i] == parts[i] { }
    }
  }

  /** `RulesetExtent` and `RulesetSelector` together. */
  lemma {:induction false} RulesetShape<D>(first: Token, rest: seq<Token>, declaration: Part -> Result<D, ParseError>)
    ensures var (r, n) := RulesetSpec(first, rest, declaration);
            var stream := [first] + rest;
            && ((r.Err? && r.error.reason == NoDeclarationBlock) <==> forall i :: 0 <= i < |stream| ==> !IsLeftBrace(stream[i]))
            && (r.Err? && r.error.reason == NoDeclarationBlock ==>
                  n == |rest| && r.error == ErrorAt(stream[|stream| - 1], NoDeclarationBlock))
            && (r.Ok? ==>
                  && IsLeftBrace(stream[n]) && (forall i :: 0 <= i < n ==> !IsLeftBrace(stream[i]))
                  && r.value.0.selector == Container(Selector, [], [], stream[..n], first.line, first.column)
                  && (forall i :: 0 <= i < n ==> AnyOk(stream[i]))
                  && r.value.0.line == first.line && r.value.0.column == first.column)
  {
    RulesetExtent(first, rest, declaration);
    RulesetSelector(first, rest, declaration);
  }

  /** A ruleset with a block is never rejected for lacking one. */
  lemma {:induction false} RulesetOfError<D>(first: Token, parts: seq<Token>, block: Token, declaration: Part -> Result<D, ParseError>)
    ensures var r := RulesetOf(first, parts, block, declaration);
            r.Err? ==> r.error.reason != NoDeclarationBlock
  {
    match FirstInvalid(parts, InSelector)
    case Some(e) =>
    case None =>
  }

  /** The block's content is parsed as a declaration list; its errors are
      returned with the ruleset, not raised. */
  lemma {:induction false} RulesetDeclarations<D>(first: Token, rest: seq<Token>, declaration: Part -> Result<D, ParseError>)
    ensures var (r, n) := RulesetSpec(first, rest, declaration);
            var stream := [first] + rest;
            r.Ok? ==>
              var (declarations, errors) := DeclarationListSpec(ContentOf(stream[n]), declaration);
              r.value.0.declarations == declarations && r.value.1 == errors
  {
    var stream := [first] + rest;
    var k := FindFirst(stream, IsLeftBrace);
    FindFirstShape(stream, IsLeftBrace);
    if k < |stream| {
      RulesetAt(first, rest, k, declaration);
    }
  }

  /** Whatever follows a ruleset's block does not change how it is read. */
  lemma {:induction false} RulesetPrefix<D>(first: Token, a: seq<Token>, b: seq<Token>, declaration: Part -> Result<D, ParseError>)
    requires FindFirst([first] + a, IsLeftBrace) < |a| + 1
    ensures RulesetSpec(first, a + b, declaration) == RulesetSpec(first, a, declaration)
  {
    var stream := [first] + a;
    AppendAssociates([first], a, b);
    var k := FindFirst(stream, IsLeftBrace);
    FindFirstShape(stream, IsLeftBrace);
    PrefixOfAppend(stream, b, k);
    RulesetAt(first, a, k, declaration);
    RulesetAt(first, a + b, k, declaration);
  }

  /** Where the loop of `parse_ruleset` reaches the block: `stream` is the
      first token followed by the unread ones. */
  lemma {:induction false} RulesetStops<D>(first: Token, tokens: seq<Token>, start: nat, end: nat, declaration: Part -> Result<D, ParseError>)
    requires start <= end <= |tokens|
    requires var stream := [first] + tokens[start..];
             IsLeftBrace(stream[end - start]) && forall i :: 0 <= i < end - start ==> !IsLeftBrace(stream[i])
    ensures var stream := [first] + tokens[start..];
            RulesetSpec(first, tokens[start..], declaration)
            == (RulesetOf(first, stream[..end - start], stream[end - start], declaration), end - start)
  {
    RulesetAt(first, tokens[start..], end - start, declaration);
  }

  /** Where the loop of `parse_ruleset` runs out of tokens. */
  lemma {:induction false} RulesetRunsOut<D>(first: Token, tokens: seq<Token>, start: nat, declaration: Part -> Result<D, ParseError>)
    requires start <= |tokens|
    requires var stream := [first] + tokens[start..];
             forall i :: 0 <= i < |stream| ==> !IsLeftBrace(stream[i])
    ensures var stream := [first] + tokens[start..];
            RulesetSpec(first, tokens[start..], declaration)
            == (Err(ErrorAt(stream[|stream| - 1], NoDeclarationBlock)), |tokens| - start)
  {
    FindFirstIs([first] + tokens[start..], IsLeftBrace, |tokens| - start + 1);
  }

  /** The end of `parse_ruleset` once the block is read. */
  method FinishRuleset<D>(first: Token, selectorParts: seq<Token>, block: Token, declaration: Part -> Result<D, ParseError>)
    returns (result: Result<(RuleSet<D>, seq<ParseError>), ParseError>)
    ensures result == RulesetOf(first, selectorParts, block, declaration)
  {
    var error := ValidateAll(selectorParts, InSelector);
    if error.Some? {
      return Err(error.value);
    }
    var start := if selectorParts != [] then selectorParts[0] else block;
    var selector := Container(Selector, [], [], selectorParts, start.line, start.column);
    var declarations, errors := ParseDeclarationList(ContentOf(block), declaration);
    result := Ok((RuleSet(selector, declarations, first.line, first.column), errors));
  }

  /** `parse_ruleset`: reads `first` and then from `tokens[start..]`, returns
      where it stopped. */
  method ParseRuleset<D>(first: Token, tokens: seq<Token>, start: nat, declaration: Part -> Result<D, ParseError>)
    returns (result: Result<(RuleSet<D>, seq<ParseError>), ParseError>, end: nat)
    requires start <= |tokens|
    ensures start <= end <= |tokens|
    ensures (result, end - start) == RulesetSpec(first, tokens[start..], declaration)
  {
    var token, selectorParts;
    token, selectorParts, end := ScanRuleset(first, tokens, start);
    if token.kind == LeftBrace {
      RulesetStops(first, tokens, start, end, declaration);
      result := FinishRuleset(first, selectorParts, token, declaration);
    } else {
      RulesetRunsOut(first, tokens, start, declaration);
      result := Err(ErrorAt(token, NoDeclarationBlock));
    }
  }

  /** The loop of `parse_ruleset` over `chain([first_token], tokens)` up to the
      first `{` block, or up to the last token when there is none: `token` is
      where it stopped, `selectorParts` what it appended before. */
  method ScanRuleset(first: Token, tokens: seq<Token>, start: nat)
    returns (token: Token, selectorParts: seq<Token>, end: nat)
    requires start <= |tokens|
    ensures var stream := [first] + tokens[start..];
            && start <= end <= |tokens|
            && token == stream[end - start]
            && selectorParts == stream[..end - start]
            && (forall i :: 0 <= i < end - start ==> !IsLeftBrace(stream[i]))
            && (!IsLeftBrace(token) ==> end == |tokens|)
  {
    ghost var stream := [first] + tokens[start..];
    selectorParts := [];
    token := first;
    end := start;
    while token.kind != LeftBrace && end < |tokens|
      invariant start <= end <= |tokens|
      invariant token == stream[end - start]
      invariant selectorParts == stream[..end - start]
      invariant forall i :: 0 <= i < end - start ==> !IsLeftBrace(stream[i])
    {
      selectorParts := selectorParts + [token];
      token := tokens[end];
      end := end + 1;
    }
  }

  // ----- Values and declarations --------------------------------------------

  /** How `parse_value` checks one token: a `{` block as `block` content,
      anything else as `any`. */
  function ValueCheck(t: Token): Option<ParseError>
  {
    if t.kind == LeftBrace then ValidateBlock(ContentOf(t), InPropertyValue)
    else ValidateAny(t, InPropertyValue)
  }

  /** The first error `ValueCheck` finds, in order. */
  function FirstInvalidValue(ts: seq<Token>): Option<ParseError>
  {
    if ts == [] then None
    else if ValueCheck(ts[0]).Some? then ValueCheck(ts[0])
    else FirstInvalidValue(ts[1..])
  }

  lemma {:induction false} FirstInvalidValueAppend(a: seq<Token>, b: seq<Token>)
    ensures FirstInvalidValue(a + b) == if FirstInvalidValue(a).Some? then FirstInvalidValue(a) else FirstInvalidValue(b)
  {
    if a == [] {
      assert a + b == b;
    } else {
      assert (a + b)[1..] == a[1..] + b;
      FirstInvalidValueAppend(a[1..], b);
    }
  }

  /** `parse_value`: the tokens without white space at either end, once every
      one of them has passed `ValueCheck`. */
  function ParseValueSpec(ts: seq<Token>): Result<seq<Token>, ParseError>
  {
    var content := DropWhile(ts, IsS);
    match FirstInvalidValue(content)
    case Some(e) => Err(e)
    case None => Ok(DropWhileEnd(content, IsS))
  }

  /** A token of a property value in the core grammar. */
  predicate ValueOk(t: Token)
  {
    if t.kind == LeftBrace then t.Atom? || BlockOk(t.content) else AnyOk(t)
  }

  lemma {:induction false} FirstInvalidValueAccepts(ts: seq<Token>)
    ensures FirstInvalidValue(ts).None? <==> forall i :: 0 <= i < |ts| ==> ValueOk(ts[i])
  {
    if ts != [] {
      var t := ts[0];
      if t.kind == LeftBrace {
        ValidateBlockAccepts(ContentOf(t), InPropertyValue);
        if t.Atom? {
          assert ContentOf(t) == [];
        }
      } else {
        ValidateAnyAccepts(t, InPropertyValue);
      }
      FirstInvalidValueAccepts(ts[1..]);
      assert forall i :: 1 <= i < |ts| ==> ts[i] == ts[1..][i - 1];
    }
  }

  /** A value is accepted exactly when every token after the leading white space
      is a value token; what is kept is a contiguous run of the input with only
      white space around it, starting and ending with something else. */
  lemma {:induction false} ParseValueAccepts(ts: seq<Token>)
    ensures ParseValueSpec(ts).Ok? <==> forall i :: 0 <= i < |DropWhile(ts, IsS)| ==> ValueOk(DropWhile(ts, IsS)[i])
    ensures ParseValueSpec(ts).Ok? ==>
              var v := ParseValueSpec(ts).value;
              RunOf(v, ts, IsS) && (v != [] ==> !IsS(v[0]) && !IsS(v[|v| - 1]))
  {
    FirstInvalidValueAccepts(DropWhile(ts, IsS));
    Trimmed(ts, IsS);
  }

  /** Where `parse_value` raises: at the first token after the leading white
      space that fails its check. */
  lemma {:induction false} ParseValueStops(tokens: seq<Token>, start: nat, i: nat)
    requires start <= i < |tokens|
    requires FirstInvalidValue(DropWhile(tokens[start..i], IsS)).None?
    requires DropWhile(tokens[start..i], IsS) != [] || !IsS(tokens[i])
    requires ValueCheck(tokens[i]).Some?
    ensures ParseValueSpec(tokens[start..]) == Err(ValueCheck(tokens[i]).value)
  {
    FirstInvalidAt(tokens, start, i);
  }

  /** The first token after the leading white space that fails its check is
      the first error of the value. */
  lemma {:induction false} FirstInvalidAt(tokens: seq<Token>, start: nat, i: nat)
    requires start <= i < |tokens|
    requires FirstInvalidValue(DropWhile(tokens[start..i], IsS)).None?
    requires DropWhile(tokens[start..i], IsS) != [] || !IsS(tokens[i])
    requires ValueCheck(tokens[i]).Some?
    ensures FirstInvalidValue(DropWhile(tokens[start..], IsS)) == ValueCheck(tokens[i])
  {
    var after := tokens[i..];
    DropWhileSplit(tokens, start, i, IsS);
    FirstInvalidValueAppend(DropWhile(tokens[start..i], IsS), after);
    assert after[0] == tokens[i];
  }

  /** One token of `parse_value` read without error: the value so far still
      passes. */
  lemma {:induction false} ParseValueStep(tokens: seq<Token>, start: nat, i: nat)
    requires start <= i < |tokens|
    requires FirstInvalidValue(DropWhile(tokens[start..i], IsS)).None?
    requires (DropWhile(tokens[start..i], IsS) == [] && IsS(tokens[i])) || ValueCheck(tokens[i]).None?
    requires DropWhile(tokens[start..i + 1], IsS)
          == if DropWhile(tokens[start..i], IsS) == [] && IsS(tokens[i]) then []
             else DropWhile(tokens[start..i], IsS) + [tokens[i]]
    ensures FirstInvalidValue(DropWhile(tokens[start..i + 1], IsS)).None?
  {
    var content := DropWhile(tokens[start..i], IsS);
    if !(content == [] && IsS(tokens[i])) {
      FirstInvalidValueAppend(content, [tokens[i]]);
      assert [tokens[i]][1..] == [];
    }
  }

  /** `parse_value` once every token is read. */
  lemma {:induction false} ParseValueEnds(tokens: seq<Token>, start: nat)
    requires start <= |tokens|
    requires FirstInvalidValue(DropWhile(tokens[start..|tokens|], IsS)).None?
    ensures ParseValueSpec(tokens[start..]) == Ok(DropWhileEnd(DropWhile(tokens[start..|tokens|], IsS), IsS))
  {
    assert tokens[start..|tokens|] == tokens[start..];
  }

  /** `parse_value` on the unread tokens `tokens[start..]` (it reads them all). */
  method ParseValue(tokens: seq<Token>, start: nat) returns (result: Result<seq<Token>, ParseError>)
    requires start <= |tokens|
    ensures result == ParseValueSpec(tokens[start..])
  {
    var content: seq<Token> := [];
    for i := start to |tokens|
      invariant content == DropWhile(tokens[start..i], IsS)
      invariant FirstInvalidValue(content).None?
    {
      var token := tokens[i];
      // Skip white space at the start.
      if content != [] || token.kind != S {
        var error := if token.kind == LeftBrace then ValidateBlock(ContentOf(token), InPropertyValue)
                     else ValidateAny(token, InPropertyValue);
        if error.Some? {
          ParseValueStops(tokens, start, i);
          return Err(error.value);
        }
        content := content + [token];
      }
      SkipStep(tokens, start, i + 1);
      ParseValueStep(tokens, start, i);
    }
    ParseValueEnds(tokens, start);
    // Remove white space at the end.
    content := PopTrailingS(content);
    result := Ok(content);
  }

  /** `CoreParser.parse_declaration`: an IDENT, white space, `:`, and a
      non-empty value. */
  function CoreDeclaration(ts: Part): Result<Declaration, ParseError>
  {
    var nameToken := ts[0];
    if nameToken.kind != Ident then Err(ErrorAt(nameToken, ExpectedPropertyName(nameToken.kind)))
    else
      var afterName := DropWhile(ts[1..], IsS);
      if afterName == [] then Err(ErrorAt(ts[|ts| - 1], ExpectedColon))
      else if afterName[0].kind != Colon then Err(ErrorAt(afterName[0], ExpectedColonGot(afterName[0].kind)))
      else
        match ParseValueSpec(afterName[1..])
        case Err(e) => Err(e)
        case Ok(value) =>
          if value == [] then Err(ErrorAt(afterName[0], ExpectedPropertyValue))
          else
            Ok(Declaration(Lower(ValueText(nameToken)), Container(Values, [], [], value, value[0].line, value[0].column),
                           nameToken.line, nameToken.column))
  }

  /** `parse_declaration`: the same, with the source's loop looking for the `:`. */
  method ParseDeclaration(tokens: Part) returns (result: Result<Declaration, ParseError>)
    ensures result == CoreDeclaration(tokens)
  {
    var nameToken := tokens[0];
    if nameToken.kind != Ident {
      return Err(ErrorAt(nameToken, ExpectedPropertyName(nameToken.kind)));
    }
    var propertyName := Lower(ValueText(nameToken));
    var i := SkipToColon(tokens);
    if i == |tokens| {
      return Err(ErrorAt(tokens[|tokens| - 1], ExpectedColon));
    }
    if tokens[i].kind != Colon {
      return Err(ErrorAt(tokens[i], ExpectedColonGot(tokens[i].kind)));
    }
    var colon := tokens[i];
    assert tokens[i..][1..] == tokens[i + 1..];
    var value := ParseValue(tokens, i + 1);
    if value.Err? {
      return Err(value.error);
    }
    if value.value == [] {
      return Err(ErrorAt(colon, ExpectedPropertyValue));
    }
    var values := Container(Values, [], [], value.value, value.value[0].line, value.value[0].column);
    result := Ok(Declaration(propertyName, values, nameToken.line, nameToken.column));
  }

  /** The loop of `parse_declaration` after the name: white space is passed
      over up to the `:`, and it stops early at any other token. */
  method SkipToColon(tokens: Part) returns (i: nat)
    ensures 1 <= i <= |tokens| && DropWhile(tokens[1..], IsS) == tokens[i..]
  {
    i := 1;
    while i < |tokens| && tokens[i].kind != Colon
      invariant 1 <= i <= |tokens|
      invariant All(tokens[1..i], IsS)
    {
      if tokens[i].kind != S {
        break;
      }
      assert tokens[1..i + 1] == tokens[1..i] + [tokens[i]];
      i := i + 1;
    }
    assert tokens[1..][..i - 1] == tokens[1..i];
    DropWhileAt(tokens[1..], i - 1, IsS);
    assert tokens[1..][i - 1..] == tokens[i..];
  }

  /** A property value as the core grammar accepts it: non-empty, starting and
      ending with something other than white space, every token checked. */
  predicate ValueShape(v: seq<Token>)
  {
    v != [] && !IsS(v[0]) && !IsS(v[|v| - 1]) && All(v, ValueOk)
  }

  lemma {:induction false} ValueAccepts(ts: seq<Token>)
    ensures FirstInvalidValue(ts).None? <==> All(ts, ValueOk)
  {
    FirstInvalidValueAccepts(ts);
  }

  /** White space is accepted in a value. */
  lemma {:induction false} SpaceValueOk(ts: seq<Token>)
    requires All(ts, IsS)
    ensures All(ts, ValueOk)
  {
    forall i | 0 <= i < |ts| ensures ValueOk(ts[i]) {
      assert IsS(ts[i]);
    }
  }

  /** A value `parse_value` returns has that shape unless it is empty. */
  lemma {:induction false} ParseValueShape(ts: seq<Token>)
    requires ParseValueSpec(ts).Ok? && ParseValueSpec(ts).value != []
    ensures ValueShape(ParseValueSpec(ts).value)
  {
    var content := DropWhile(ts, IsS);
    ValueAccepts(content);
    Trimmed(ts, IsS);
    var v := DropWhileEnd(content, IsS);
    DropWhileEndShape(content, IsS);
    AllSlice(content, 0, |v|, ValueOk);
  }

  /** A value written with white space around it is read back as itself. */
  lemma {:induction false} ParseValueOf(ws: seq<Token>, v: seq<Token>, trailing: seq<Token>)
    requires All(ws, IsS) && All(trailing, IsS) && ValueShape(v)
    ensures ParseValueSpec(ws + v + trailing) == Ok(v)
  {
    AppendAssociates(ws, v, trailing);
    DropWhilePrefix(ws, v + trailing, IsS);
    DropWhileEndSuffix(v, trailing, IsS);
    SpaceValueOk(trailing);
    AllAppend(v, trailing, ValueOk);
    ValueAccepts(v + trailing);
  }

  /** An accepted declaration starts with an IDENT, whose lower-cased value is
      its name and whose position is its own; its value is a VALUES container,
      placed at its first token, holding a value of the accepted shape. */
  lemma {:induction false} CoreDeclarationShape(ts: Part)
    requires CoreDeclaration(ts).Ok?
    ensures ts[0].kind == Ident
    ensures var d := CoreDeclaration(ts).value;
            && d.name == Lower(ValueText(ts[0])) && NoUpper(d.name)
            && d.line == ts[0].line && d.column == ts[0].column
            && d.value.Container? && d.value.kind == Values && ValueShape(d.value.content)
            && d.value.line == d.value.content[0].line && d.value.column == d.value.content[0].column
  {
    var afterName := DropWhile(ts[1..], IsS);
    ParseValueShape(afterName[1..]);
  }

  /** The errors of a declaration that does not start with a property name, or
      has nothing but white space after it. */
  lemma {:induction false} CoreDeclarationErrors(ts: Part)
    ensures ts[0].kind != Ident ==> CoreDeclaration(ts) == Err(ErrorAt(ts[0], ExpectedPropertyName(ts[0].kind)))
    ensures ts[0].kind == Ident && All(ts[1..], IsS) ==> CoreDeclaration(ts) == Err(ErrorAt(ts[|ts| - 1], ExpectedColon))
  {
    if ts[0].kind == Ident && All(ts[1..], IsS) {
      DropWhileAt(ts[1..], |ts| - 1, IsS);
    }
  }

  /** A declaration written as a property name, white space, `:`, white space,
      a value and white space is read back as that name and that value. */
  lemma {:induction false} DeclarationRoundTrip(name: Token, ws1: seq<Token>, colon: Token, ws2: seq<Token>, value: seq<Token>, ws3: seq<Token>)
    requires name.kind == Ident && colon.kind == Colon
    requires All(ws1, IsS) && All(ws2, IsS) && All(ws3, IsS) && ValueShape(value)
    ensures CoreDeclaration([name] + ws1 + [colon] + ws2 + value + ws3)
         == Ok(Declaration(Lower(ValueText(name)), Container(Values, [], [], value, value[0].line, value[0].column),
                           name.line, name.column))
  {
    var tail := [colon] + (ws2 + value + ws3);
    var ts := [name] + (ws1 + tail);
    assert [name] + ws1 + [colon] + ws2 + value + ws3 == ts by {
      AppendAssociates([name] + ws1 + [colon], ws2 + value, ws3);
      AppendAssociates([name] + ws1 + [colon], ws2, value);
      AppendAssociates([name] + ws1, [colon], ws2 + value + ws3);
      AppendAssociates([name], ws1, tail);
    }
    assert ts[1..] == ws1 + tail;
    DropWhilePrefix(ws1, tail, IsS);
    assert tail[1..] == ws2 + value + ws3;
    ParseValueOf(ws2, value, ws3);
  }

  // ----- Statements ----------------------------------------------------------

  /** The tokens `parse_statements` skips between statements. */
  predicate IsSkipped(t: Token) { t.kind == S || t.kind == Cdo || t.kind == Cdc }

  /** One statement read from `t` and the unread tokens `rest`: the statement and
      the errors recovered inside it, or the error that skips it; and how many
      tokens of `rest` were consumed. */
  function StatementAt<A, D>(t: Token, rest: seq<Token>, context: Text, hooks: Hooks<A, D>)
    : (r: (Result<(Statement<A, D>, seq<ParseError>), ParseError>, nat))
    ensures r.1 <= |rest|
  {
    if t.kind == AtKeyword then
      var (rule, n) := ReadAtRuleSpec(t, rest);
      (AtRuleOutcome(rule, context, hooks), n)
    else
      var (ruleset, n) := RulesetSpec(t, rest, hooks.declaration);
      (RulesetOutcome(ruleset), n)
  }

  /** An at-rule statement: what the hook made of the at-rule read. */
  function AtRuleOutcome<A, D>(rule: Result<AtRule, ParseError>, context: Text, hooks: Hooks<A, D>)
    : Result<(Statement<A, D>, seq<ParseError>), ParseError>
  {
    match rule
    case Err(e) => Err(e)
    case Ok(rule) =>
      match hooks.atRule(rule, context)
      case Err(e) => Err(e)
      case Ok(a) => Ok((AtRuleStatement(a), []))
  }

  /** A ruleset statement, with the errors recovered in its declarations. */
  function RulesetOutcome<A, D>(ruleset: Result<(RuleSet<D>, seq<ParseError>), ParseError>)
    : Result<(Statement<A, D>, seq<ParseError>), ParseError>
  {
    match ruleset
    case Err(e) => Err(e)
    case Ok((rs, errors)) => Ok((RuleSetStatement(rs), errors))
  }

  /** The reader `parse_statements` applies at each statement. */
  function StatementReader<A, D>(context: Text, hooks: Hooks<A, D>): (read: Reader<Token, Statement<A, D>, ParseError>)
    ensures Bounded(read)
  {
    (t: Token, rest: seq<Token>) => StatementAt(t, rest, context, hooks)
  }

  /** `parse_statements`: the statements in order, and every error in order. */
  function StatementsSpec<A, D>(ts: seq<Token>, context: Text, hooks: Hooks<A, D>): (seq<Statement<A, D>>, seq<ParseError>)
  {
    CollectAll(ts, IsSkipped, StatementReader(context, hooks))
  }

  /** The outcome of one statement, as the body of `parse_statements` builds it. */
  method ParseStatement<A, D>(token: Token, tokens: seq<Token>, start: nat, context: Text, hooks: Hooks<A, D>)
    returns (outcome: Result<(Statement<A, D>, seq<ParseError>), ParseError>, end: nat)
    requires start <= |tokens|
    ensures start <= end <= |tokens|
    ensures (outcome, end - start) == StatementAt(token, tokens[start..], context, hooks)
  {
    if token.kind == AtKeyword {
      outcome, end := ParseAtRuleStatement(token, tokens, start, context, hooks);
    } else {
      var ruleset;
      ruleset, end := ParseRuleset(token, tokens, start, hooks.declaration);
      outcome := if ruleset.Ok? then Ok((RuleSetStatement(ruleset.value.0), ruleset.value.1)) else Err(ruleset.error);
    }
  }

  /** An at-rule statement: the at-rule is read, then handed to the
      `parse_at_rule` hook. */
  method ParseAtRuleStatement<A, D>(token: Token, tokens: seq<Token>, start: nat, context: Text, hooks: Hooks<A, D>)
    returns (outcome: Result<(Statement<A, D>, seq<ParseError>), ParseError>, end: nat)
    requires start <= |tokens| && token.kind == AtKeyword
    ensures start <= end <= |tokens|
    ensures (outcome, end - start) == StatementAt(token, tokens[start..], context, hooks)
  {
    var rule;
    rule, end := ReadAtRule(token, tokens, start);
    if rule.Err? {
      outcome := Err(rule.error);
    } else {
      var result := hooks.atRule(rule.value, context);
      outcome := if result.Ok? then Ok((AtRuleStatement(result.value), [])) else Err(result.error);
    }
  }

  /** One turn of the `parse_statements` loop: skip a token, or read the
      statement starting at `i` and record its outcome. */
  method StatementStep<A, D>(tokens: seq<Token>, i: nat, context: Text, hooks: Hooks<A, D>,
                             statements: seq<Statement<A, D>>, errors: seq<ParseError>)
    returns (statements': seq<Statement<A, D>>, errors': seq<ParseError>, next: nat)
    requires i < |tokens|
    ensures i < next <= |tokens|
    ensures Join((statements', errors'), StatementsSpec(tokens[next..], context, hooks))
         == Join((statements, errors), StatementsSpec(tokens[i..], context, hooks))
  {
    var token := tokens[i];
    if token.kind != S && token.kind != Cdo && token.kind != Cdc {
      var outcome, end := ParseStatement(token, tokens, i + 1, context, hooks);
      CollectItem(tokens, i, IsSkipped, StatementReader(context, hooks), outcome, end);
      JoinThen((statements, errors), outcome, StatementsSpec(tokens[end..], context, hooks));
      statements', errors' := Record(statements, errors, outcome);
      next := end;
    } else {
      CollectSkip(tokens, i, IsSkipped, StatementReader(context, hooks));
      statements', errors', next := statements, errors, i + 1;
    }
  }

  /** `parse_statements`: every statement is read, and an error skips the
      statement it is in. */
  method ParseStatements<A, D>(tokens: seq<Token>, context: Text, hooks: Hooks<A, D>)
    returns (statements: seq<Statement<A, D>>, errors: seq<ParseError>)
    ensures (statements, errors) == StatementsSpec(tokens, context, hooks)
  {
    statements, errors := [], [];
    var i := 0;
    assert tokens[i..] == tokens;
    JoinNothing(StatementsSpec(tokens, context, hooks));
    while i < |tokens|
      invariant i <= |tokens|
      invariant Join((statements, errors), StatementsSpec(tokens[i..], context, hooks)) == StatementsSpec(tokens, context, hooks)
      decreases |tokens| - i
    {
      statements, errors, i := StatementStep(tokens, i, context, hooks, statements, errors);
    }
    assert tokens[i..] == [];
    JoinNothing((statements, errors));
  }

  // ----- Recovery across statements ---------------------------------------------

  /** The statement starting with `t` ends inside `rest`: an at-rule at its `;`
      or block, a ruleset at its block. */
  predicate Ends(t: Token, rest: seq<Token>)
  {
    if t.kind == AtKeyword then FindFirst(rest, EndsAtRule) < |rest|
    else FindFirst([t] + rest, IsLeftBrace) < |rest| + 1
  }

  /** A statement that ends is read the same whatever follows it. */
  lemma {:induction false} StatementAtPrefix<A, D>(t: Token, a: seq<Token>, b: seq<Token>, context: Text, hooks: Hooks<A, D>)
    requires Ends(t, a)
    ensures StatementAt(t, a + b, context, hooks) == StatementAt(t, a, context, hooks)
  {
    if t.kind == AtKeyword {
      ReadAtRulePrefix(t, a, b);
    } else {
      RulesetPrefix(t, a, b, hooks.declaration);
    }
  }

  /** Every statement of `ts` ends inside `ts`. */
  ghost predicate AllEnd<A, D>(ts: seq<Token>, context: Text, hooks: Hooks<A, D>)
  {
    Complete(ts, IsSkipped, StatementReader(context, hooks), Ends)
  }

  /** Recovery: once every statement of `p` has ended, what follows is read as
      if it stood alone, and its statements and errors come after those of `p`;
      in particular an error in `p` drops nothing of `q`. */
  lemma {:induction false} StatementsAppend<A, D>(p: seq<Token>, q: seq<Token>, context: Text, hooks: Hooks<A, D>)
    requires AllEnd(p, context, hooks)
    ensures StatementsSpec(p + q, context, hooks) == Join(StatementsSpec(p, context, hooks), StatementsSpec(q, context, hooks))
  {
    var read := StatementReader(context, hooks);
    forall t, a, b | Ends(t, a) ensures read(t, a + b) == read(t, a) {
      StatementAtPrefix(t, a, b, context, hooks);
    }
    CollectAppend(p, q, IsSkipped, read, Ends);
  }

  // ----- Stylesheets ------------------------------------------------------------

  /** The `@charset "...";` header `_remove_at_charset` removes: an ATKEYWORD
      whose value is exactly `@charset`, an S token that is exactly one space, a
      STRING written with double quotes, and `;`. */
  predicate IsCharsetHeader(h: seq<Token>)
  {
    && |h| == 4
    && h[0].kind == AtKeyword && h[1].kind == S && h[2].kind == String && h[3].kind == Semicolon
    && ValueText(h[0]) == Lit("@charset") && ValueText(h[1]) == Lit(" ")
    && AsCss(h[2]) != [] && AsCss(h[2])[0] == '"' as int
  }

  /** `_remove_at_charset`: the first four tokens are dropped exactly when they
      are that header; otherwise the stream is unchanged. */
  function RemoveAtCharset(ts: seq<Token>): (r: seq<Token>)
    ensures |r| < |ts| <==> |ts| >= 4 && IsCharsetHeader(ts[..4])
    ensures |r| < |ts| ==> r == ts[4..]
    ensures |r| == |ts| ==> r == ts
  {
    if |ts| >= 4 && IsCharsetHeader(ts[..4]) then ts[4..] else ts
  }

  /** The tokens of `@charset "name";` read at a position. */
  function CharsetRule(name: Text, line: int, column: int): (h: seq<Token>)
    ensures IsCharsetHeader(h)
    ensures h[0].line == line && h[0].column == column
  {
    [Atom(AtKeyword, Lit("@charset"), TextValue(Lit("@charset")), None, line, column),
     Atom(S, Lit(" "), TextValue(Lit(" ")), None, line, column + 8),
     Atom(String, Lit("\"") + name + Lit("\""), TextValue(name), None, line, column + 9),
     Atom(Semicolon, Lit(";"), TextValue(Lit(";")), None, line, column + 11 + |name|)]
  }

  /** A `@charset` rule written at the start of a stream is removed, and only it. */
  lemma {:induction false} RemoveCharsetRule(name: Text, line: int, column: int, rest: seq<Token>)
    ensures RemoveAtCharset(CharsetRule(name, line, column) + rest) == rest
  {
    var h := CharsetRule(name, line, column);
    assert (h + rest)[..4] == h;
    assert (h + rest)[4..] == rest;
  }

  /** A parsed stylesheet: its statements, its errors and its encoding. */
  datatype Stylesheet<A, D> = Stylesheet(statements: seq<Statement<A, D>>, errors: seq<ParseError>, encoding: Option<Text>)

  /** `parse_stylesheet` on grouped tokens: the header is removed only when an
      encoding (a non-empty name) is given, then the statements are read in the
      `stylesheet` context. */
  function StylesheetSpec<A, D>(tokens: seq<Token>, encoding: Option<Text>, hooks: Hooks<A, D>): Stylesheet<A, D>
  {
    var input := if encoding.Some? && encoding.value != [] then RemoveAtCharset(tokens) else tokens;
    var (statements, errors) := StatementsSpec(input, Lit("stylesheet"), hooks);
    Stylesheet(statements, errors, encoding)
  }

  method ParseStylesheet<A, D>(tokens: seq<Token>, encoding: Option<Text>, hooks: Hooks<A, D>)
    returns (sheet: Stylesheet<A, D>)
    ensures sheet == StylesheetSpec(tokens, encoding, hooks)
  {
    var input := tokens;
    if encoding.Some? && encoding.value != [] {
      input := RemoveAtCharset(tokens);
    }
    var statements, errors := ParseStatements(input, Lit("stylesheet"), hooks);
    sheet := Stylesheet(statements, errors, encoding);
  }

  /** With an encoding given, a leading `@charset` rule leaves no trace: the
      statements and errors are those of what follows it. */
  lemma {:induction false} CharsetIgnored<A, D>(name: Text, line: int, column: int, rest: seq<Token>, encoding: Text, hooks: Hooks<A, D>)
    requires encoding != []
    ensures var (statements, errors) := StatementsSpec(rest, Lit("stylesheet"), hooks);
            StylesheetSpec(CharsetRule(name, line, column) + rest, Some(encoding), hooks)
            == Stylesheet(statements, errors, Some(encoding))
  {
    RemoveCharsetRule(name, line, column, rest);
  }

  /** A `@charset` header read as an at-rule: its keyword, its string as the
      head, no body; the `;` ends it. */
  lemma {:induction false} CharsetHeaderRead(h: seq<Token>)
    requires IsCharsetHeader(h)
    ensures ReadAtRuleSpec(h[0], h[1..]) == (Ok(AtRule(Lit("@charset"), [h[2]], None, h[0].line, h[0].column)), 3)
  {
    var rest := h[1..];
    FindFirstIs(rest, EndsAtRule, 2);
    assert rest[..2] == [h[1], h[2]];
    TrimPair(h[1], h[2], IsS);
    assert FirstInvalid([h[2]], InAtRuleHead) == None by {
      assert ValidateAny(h[2], InAtRuleHead) == None;
      assert [h[2]][1..] == [];
    }
    CharsetLower();
    assert ReadAtRuleSpec(h[0], rest) == (AtRuleOf(h[0], [h[2]], h[3]), 3);
  }

  /** The core parser's outcome for a `@charset` header: the
      "mis-placed or malformed @charset rule" error at the at-keyword, with the
      whole header consumed. */
  lemma {:induction false} CharsetHeaderOutcome<A, D>(h: seq<Token>, context: Text, declaration: Part -> Result<D, ParseError>)
    requires IsCharsetHeader(h)
    ensures StatementAt<A, D>(h[0], h[1..], context, Hooks(CoreParseAtRule, declaration))
         == (Err(ParseError(h[0].line, h[0].column, MisplacedCharset)), 3)
  {
    CharsetHeaderRead(h);
  }

  /** Read as statements by the core parser, a `@charset` header gives only
      that error, and ends inside itself. */
  lemma {:induction false} CharsetHeaderStatements<A, D>(h: seq<Token>, context: Text, declaration: Part -> Result<D, ParseError>)
    requires IsCharsetHeader(h)
    ensures var hooks: Hooks<A, D> := Hooks(CoreParseAtRule, declaration);
            && AllEnd(h, context, hooks)
            && StatementsSpec(h, context, hooks) == ([], [ParseError(h[0].line, h[0].column, MisplacedCharset)])
  {
    var hooks: Hooks<A, D> := Hooks(CoreParseAtRule, declaration);
    var read := StatementReader(context, hooks);
    var e := ParseError(h[0].line, h[0].column, MisplacedCharset);
    CharsetHeaderOutcome<A, D>(h, context, declaration);
    assert read(h[0], h[1..]) == (Err(e), 3);
    CharsetHeaderEnds(h);
    CollectOneError(h, IsSkipped, read, Ends, e);
  }

  /** The header's at-rule ends at its `;`. */
  lemma {:induction false} CharsetHeaderEnds(h: seq<Token>)
    requires IsCharsetHeader(h)
    ensures Ends(h[0], h[1..])
  {
    FindFirstIs(h[1..], EndsAtRule, 2);
  }

  /** Without an encoding the header is not removed: the core parser reports it
      as mis-placed, and reads what follows it as if it stood alone. */
  lemma {:induction false} CharsetWithoutEncoding<A, D>(h: seq<Token>, rest: seq<Token>, declaration: Part -> Result<D, ParseError>)
    requires IsCharsetHeader(h)
    ensures var hooks: Hooks<A, D> := Hooks(CoreParseAtRule, declaration);
            var (statements, errors) := StatementsSpec(rest, Lit("stylesheet"), hooks);
            StylesheetSpec(h + rest, None, hooks)
            == Stylesheet(statements, [ParseError(h[0].line, h[0].column, MisplacedCharset)] + errors, None)
  {
    var hooks: Hooks<A, D> := Hooks(CoreParseAtRule, declaration);
    CharsetHeaderStatements<A, D>(h, Lit("stylesheet"), declaration);
    StatementsAppend(h, rest, Lit("stylesheet"), hooks);
    assert [] + StatementsSpec(rest, Lit("stylesheet"), hooks).0 == StatementsSpec(rest, Lit("stylesheet"), hooks).0;
  }
}
