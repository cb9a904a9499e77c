/** The CSS 2.1 layer over the core parser: the `!important` marker of a
    property value, `@page` selectors and the declarations of an `@page` block. */
module Css21 {
  import opened Chars
  import opened Results
  import opened TokenData
  import opened Lists
  import opened Collect
  import opened Core

  // ----- Priority ---------------------------------------------------------------

  /** The `priority` of a declaration: the string `'important'` or `None`. */
  datatype Priority = NoPriority | Important

  /** A core declaration with its priority. */
  datatype PropertyDeclaration = PropertyDeclaration(name: Text, value: Token, priority: Priority, line: int, column: int)

  /** The IDENT `important`, compared case-sensitively. */
  predicate IsImportant(t: Token) { t.kind == Ident && ValueText(t) == Lit("important") }

  /** The `!` DELIM. */
  predicate IsBang(t: Token) { t.kind == Delim && ValueText(t) == Lit("!") }

  /** The `!important` marker at the end of a value: white space, `!`, white
      space and `important`. */
  predicate IsImportantMark(tail: seq<Token>)
  {
    IsMark(tail, IsImportant, IsBang, IsS)
  }

  /** `parse_value_priority` on the content of `container`: walking from the
      end, an `important` IDENT, white space, a `!` and white space are taken
      off, and something must be left of the value then. Any other ending
      leaves the content as it is. */
  function PrioritySpec(content: seq<Token>, container: Token): Result<(seq<Token>, Priority), ParseError>
    requires content != []
  {
    match StripMark(content, IsImportant, IsBang, IsS)
    case None => Ok((content, NoPriority))
    case Some(value) =>
      if value == [] then Err(ErrorAt(container, ExpectedValueBeforeImportant)) else Ok((value, Important))
  }

  /** One token popped while looking for the `!`: the `!` decides the
      priority, any other token but white space leaves the content as it is,
      and white space is passed over. */
  lemma {:induction false} PriorityStep(content: seq<Token>, container: Token, value: seq<Token>)
    requires content != [] && IsImportant(content[|content| - 1]) && value != []
    requires DropWhileEnd(value, IsS) == DropWhileEnd(content[..|content| - 1], IsS)
    ensures var token, rest := value[|value| - 1], value[..|value| - 1];
            && (IsBang(token) ==>
                  PrioritySpec(content, container)
                  == if DropWhileEnd(rest, IsS) == [] then Err(ErrorAt(container, ExpectedValueBeforeImportant))
                     else Ok((DropWhileEnd(rest, IsS), Important)))
            && (!IsBang(token) && token.kind != S ==> PrioritySpec(content, container) == Ok((content, NoPriority)))
            && (token.kind == S ==> DropWhileEnd(rest, IsS) == DropWhileEnd(content[..|content| - 1], IsS))
  {
    var token, rest := value[|value| - 1], value[..|value| - 1];
    if token.kind != S {
      assert DropWhileEnd(value, IsS) == value;
      assert value[..|value| - 1] == rest;
    }
  }

  /** Only white space before `important`: no priority. */
  lemma {:induction false} PriorityNoBang(content: seq<Token>, container: Token)
    requires content != [] && IsImportant(content[|content| - 1])
    requires DropWhileEnd(content[..|content| - 1], IsS) == []
    ensures PrioritySpec(content, container) == Ok((content, NoPriority))
  {
  }

  /** `parse_value_priority`: pops tokens from the end of a copy of the
      content. */
  method ParseValuePriority(container: Token) returns (result: Result<(seq<Token>, Priority), ParseError>)
    requires ContentOf(container) != []
    ensures result == PrioritySpec(ContentOf(container), container)
  {
    var value := ContentOf(container);
    var token := value[|value| - 1];
    value := value[..|value| - 1];
    if IsImportant(token) {
      ghost var content := ContentOf(container);
      ghost var beforeImportant := value;
      assert beforeImportant == content[..|content| - 1] && IsImportant(content[|content| - 1]);
      ghost var stopped := false;
      while value != []
        invariant DropWhileEnd(value, IsS) == DropWhileEnd(beforeImportant, IsS)
      {
        PriorityStep(content, container, value);
        token := value[|value| - 1];
        value := value[..|value| - 1];
        if IsBang(token) {
          // White space before the `!` is not part of the value.
          value := PopTrailingS(value);
          if value == [] {
            return Err(ErrorAt(container, ExpectedValueBeforeImportant));
          }
          return Ok((value, Important));
        } else if token.kind != S {
          stopped := true;
          break;
        }
      }
      if !stopped {
        assert DropWhileEnd(value, IsS) == [];
        PriorityNoBang(content, container);
      }
    }
    return Ok((ContentOf(container), NoPriority));
  }

  /** A value followed by the marker is read back without it, white space
      before the `!` removed; with nothing before the marker it is an error
      placed at the value. */
  lemma {:induction false} PriorityMarked(prefix: seq<Token>, ws1: seq<Token>, bang: Token, ws2: seq<Token>, important: Token, container: Token)
    requires All(ws1, IsS) && IsBang(bang) && All(ws2, IsS) && IsImportant(important)
    ensures var value := DropWhileEnd(prefix, IsS);
            PrioritySpec(prefix + ws1 + [bang] + ws2 + [important], container)
            == if value == [] then Err(ErrorAt(container, ExpectedValueBeforeImportant)) else Ok((value, Important))
  {
    StripMarked(prefix, ws1, bang, ws2, important, IsImportant, IsBang, IsS);
  }

  /** A declared value ending in something other than white space keeps
      exactly its tokens. */
  lemma {:induction false} PriorityRoundTrip(value: seq<Token>, ws1: seq<Token>, bang: Token, ws2: seq<Token>, important: Token, container: Token)
    requires value != [] && !IsS(value[|value| - 1])
    requires All(ws1, IsS) && IsBang(bang) && All(ws2, IsS) && IsImportant(important)
    ensures PrioritySpec(value + ws1 + [bang] + ws2 + [important], container) == Ok((value, Important))
  {
    PriorityMarked(value, ws1, bang, ws2, important, container);
    DropWhileEndSuffix(value, [], IsS);
    assert value + [] == value;
  }

  /** What the priority is read from: an `important` result is a non-empty
      value, ending with something other than white space, followed by the
      marker; an error is a content that is nothing but the marker. */
  lemma {:induction false} PriorityFound(content: seq<Token>, container: Token)
    requires content != []
    ensures var r := PrioritySpec(content, container);
            && (r.Ok? && r.value.1 == Important ==>
                  var v := r.value.0;
                  0 < |v| < |content| && v == content[..|v|] && !IsS(v[|v| - 1]) && IsImportantMark(content[|v|..]))
            && (r.Err? ==> r.error == ErrorAt(container, ExpectedValueBeforeImportant) && IsImportantMark(content))
  {
    PriorityFoundValue(content, container);
    PriorityFoundError(content, container);
  }

  /** The important half of `PriorityFound`. */
  lemma {:induction false} PriorityFoundValue(content: seq<Token>, container: Token)
    requires content != []
    ensures var r := PrioritySpec(content, container);
            r.Ok? && r.value.1 == Important ==>
              var v := r.value.0;
              0 < |v| < |content| && v == content[..|v|] && !IsS(v[|v| - 1]) && IsImportantMark(content[|v|..])
  {
    PriorityIsStrip(content, container);
    if StripMark(content, IsImportant, IsBang, IsS).Some? {
      StripFound(content, IsImportant, IsBang, IsS);
    }
  }

  /** An important result is what the marker leaves. */
  lemma {:induction false} PriorityIsStrip(content: seq<Token>, container: Token)
    requires content != []
    ensures var r := PrioritySpec(content, container);
            var m := StripMark(content, IsImportant, IsBang, IsS);
            r.Ok? && r.value.1 == Important ==> m.Some? && r.value.0 == m.value != []
  {
  }

  /** The error half of `PriorityFound`. */
  lemma {:induction false} PriorityFoundError(content: seq<Token>, container: Token)
    requires content != []
    ensures var r := PrioritySpec(content, container);
            r.Err? ==> r.error == ErrorAt(container, ExpectedValueBeforeImportant) && IsImportantMark(content)
  {
    var m := StripMark(content, IsImportant, IsBang, IsS);
    if m.Some? && m.value == [] {
      StripFound(content, IsImportant, IsBang, IsS);
      assert content[|m.value|..] == content;
    }
  }

  /** No priority is found exactly when no suffix of the content is the
      marker. */
  lemma {:induction false} PriorityAbsent(content: seq<Token>, container: Token)
    requires content != []
    ensures (PrioritySpec(content, container).Ok? && PrioritySpec(content, container).value.1 == NoPriority)
            <==> forall n :: 0 <= n < |content| ==> !IsImportantMark(content[n..])
  {
    PriorityNoneIsStrip(content, container);
    StripAbsent(content, IsImportant, IsBang, IsS);
    assert (forall n :: 0 <= n < |content| ==> !IsImportantMark(content[n..]))
       <==> (forall n :: 0 <= n < |content| ==> !IsMark(content[n..], IsImportant, IsBang, IsS));
  }

  /** No priority exactly when the marker strips nothing. */
  lemma {:induction false} PriorityNoneIsStrip(content: seq<Token>, container: Token)
    requires content != []
    ensures var r := PrioritySpec(content, container);
            (r.Ok? && r.value.1 == NoPriority) <==> StripMark(content, IsImportant, IsBang, IsS).None?
  {
  }

  // ----- Declarations -----------------------------------------------------------

  /** `CSS21Parser.parse_declaration`: the core declaration, its value's
      content with the priority taken off. */
  function PropertyDeclarationSpec(ts: Part): Result<PropertyDeclaration, ParseError>
  {
    match CoreDeclaration(ts)
    case Err(e) => Err(e)
    case Ok(d) =>
      CoreDeclarationShape(ts);
      match PrioritySpec(d.value.content, d.value)
      case Err(e) => Err(e)
      case Ok((content, priority)) =>
        var value := Container(d.value.kind, d.value.cssStart, d.value.cssEnd, content, d.value.line, d.value.column);
        Ok(PropertyDeclaration(d.name, value, priority, d.line, d.column))
  }

  /** `CSS21Parser.parse_declaration`, calling the core parser and then
      `parse_value_priority`. */
  method ParsePropertyDeclaration(tokens: Part) returns (result: Result<PropertyDeclaration, ParseError>)
    ensures result == PropertyDeclarationSpec(tokens)
  {
    var decl := ParseDeclaration(tokens);
    if decl.Err? {
      return Err(decl.error);
    }
    var d := decl.value;
    CoreDeclarationShape(tokens);
    var priority := ParseValuePriority(d.value);
    if priority.Err? {
      return Err(priority.error);
    }
    var (content, p) := priority.value;
    // `value.content` is replaced: the container keeps its other fields.
    var value := Container(d.value.kind, d.value.cssStart, d.value.cssEnd, content, d.value.line, d.value.column);
    result := Ok(PropertyDeclaration(d.name, value, p, d.line, d.column));
  }

  /** The core's errors are kept; an accepted declaration keeps the core's
      name, position and VALUES container, only its content losing the
      marker; without a priority the core's value is kept as it is. */
  lemma {:induction false} PropertyDeclarationKeeps(ts: Part)
    ensures CoreDeclaration(ts).Err? ==> PropertyDeclarationSpec(ts) == Err(CoreDeclaration(ts).error)
    ensures PropertyDeclarationSpec(ts).Ok? ==>
              var d, p := CoreDeclaration(ts).value, PropertyDeclarationSpec(ts).value;
              && CoreDeclaration(ts).Ok? && d.value.Container?
              && p.name == d.name && p.line == d.line && p.column == d.column
              && p.value.Container? && p.value.kind == Values
              && p.value.line == d.value.line && p.value.column == d.value.column
              && (p.priority == NoPriority ==> p.value == d.value)
              && (p.priority == Important ==>
                    |p.value.content| < |d.value.content| && p.value.content == d.value.content[..|p.value.content|]
                    && IsImportantMark(d.value.content[|p.value.content|..]))
  {
    if CoreDeclaration(ts).Ok? {
      var d := CoreDeclaration(ts).value;
      CoreDeclarationShape(ts);
      PriorityFound(d.value.content, d.value);
    }
  }

  /** `name: value !important` is read back as that name, that value and the
      priority. */
  lemma {:induction false} ImportantRoundTrip(name: Token, ws1: seq<Token>, colon: Token, ws2: seq<Token>, value: seq<Token>,
                           ws3: seq<Token>, bang: Token, ws4: seq<Token>, important: Token)
    requires name.kind == Ident && colon.kind == Colon
    requires All(ws1, IsS) && All(ws2, IsS) && All(ws3, IsS) && All(ws4, IsS) && ValueShape(value)
    requires IsBang(bang) && IsImportant(important)
    ensures PropertyDeclarationSpec([name] + ws1 + [colon] + ws2 + (value + ws3 + [bang] + ws4 + [important]))
         == Ok(PropertyDeclaration(Lower(ValueText(name)), Container(Values, [], [], value, value[0].line, value[0].column),
                                   Important, name.line, name.column))
  {
    var marked := value + ws3 + [bang] + ws4 + [important];
    MarkedValueShape(value, ws3, bang, ws4, important);
    DeclarationRoundTrip(name, ws1, colon, ws2, marked, []);
    assert [name] + ws1 + [colon] + ws2 + marked + [] == [name] + ws1 + [colon] + ws2 + marked;
    PriorityRoundTrip(value, ws3, bang, ws4, important, Container(Values, [], [], marked, value[0].line, value[0].column));
    assert marked[0] == value[0];
  }

  /** `name: value` with a value not ending in `important` is read back as
      that name and that value, with no priority. */
  lemma {:induction false} PlainRoundTrip(name: Token, ws1: seq<Token>, colon: Token, ws2: seq<Token>, value: seq<Token>)
    requires name.kind == Ident && colon.kind == Colon
    requires All(ws1, IsS) && All(ws2, IsS) && ValueShape(value) && !IsImportant(value[|value| - 1])
    ensures PropertyDeclarationSpec([name] + ws1 + [colon] + ws2 + value)
         == Ok(PropertyDeclaration(Lower(ValueText(name)), Container(Values, [], [], value, value[0].line, value[0].column),
                                   NoPriority, name.line, name.column))
  {
    DeclarationRoundTrip(name, ws1, colon, ws2, value, []);
    assert [name] + ws1 + [colon] + ws2 + value + [] == [name] + ws1 + [colon] + ws2 + value;
    assert StripMark(value, IsImportant, IsBang, IsS).None?;
  }

  /** A value followed by the marker is still a value the core accepts. */
  lemma {:induction false} MarkedValueShape(value: seq<Token>, ws1: seq<Token>, bang: Token, ws2: seq<Token>, important: Token)
    requires All(ws1, IsS) && All(ws2, IsS) && ValueShape(value) && IsBang(bang) && IsImportant(important)
    ensures ValueShape(value + ws1 + [bang] + ws2 + [important])
  {
    SpaceValueOk(ws1);
    SpaceValueOk(ws2);
    assert All([bang], ValueOk);
    assert All([important], ValueOk);
    AllAppend(value, ws1, ValueOk);
    AllAppend(value + ws1, [bang], ValueOk);
    AllAppend(value + ws1 + [bang], ws2, ValueOk);
    AllAppend(value + ws1 + [bang] + ws2, [important], ValueOk);
  }

  // ----- Page selectors ----------------------------------------------------------

  /** The CSS 2.1 page selectors. */
  datatype PageSelector = First | Left | Right

  function PageSelectorName(s: PageSelector): Text
  {
    match s
    case First => Lit("first")
    case Left => Lit("left")
    case Right => Lit("right")
  }

  /** `value in ('first', 'left', 'right')`, case-sensitively. */
  function PageSelectorOf(v: Text): Option<PageSelector>
  {
    if v == Lit("first") then Some(First)
    else if v == Lit("left") then Some(Left)
    else if v == Lit("right") then Some(Right)
    else None
  }

  /** The names are told apart: each selector is read back from its name and
      from nothing else. */
  lemma {:induction false} PageSelectorNames(v: Text, s: PageSelector)
    ensures PageSelectorOf(v) == Some(s) <==> v == PageSelectorName(s)
  {
    var first, left, right := Lit("first"), Lit("left"), Lit("right");
    assert first[0] != right[0];
    assert |first| != |left| && |left| != |right|;
  }

  /** `parse_page_selector`: no selector for an empty head, a selector for `:`
      and one of the names, an error at the head's first token otherwise. */
  function PageSelectorSpec(head: seq<Token>): Result<Option<PageSelector>, ParseError>
  {
    if head == [] then Ok(None)
    else if |head| == 2 && head[0].kind == Colon && head[1].kind == Ident && PageSelectorOf(ValueText(head[1])).Some? then
      Ok(PageSelectorOf(ValueText(head[1])))
    else Err(ErrorAt(head[0], InvalidPageSelector))
  }

  /** A head is accepted exactly when it is empty or `:` and a selector's
      name, and then gives that selector. */
  lemma {:induction false} PageSelectorAccepts(head: seq<Token>, s: PageSelector)
    ensures PageSelectorSpec(head) == Ok(Some(s))
            <==> |head| == 2 && head[0].kind == Colon && head[1].kind == Ident && ValueText(head[1]) == PageSelectorName(s)
    ensures PageSelectorSpec(head) == Ok(None) <==> head == []
    ensures PageSelectorSpec(head).Err? ==> PageSelectorSpec(head).error == ErrorAt(head[0], InvalidPageSelector)
  {
    if |head| == 2 {
      PageSelectorNames(ValueText(head[1]), s);
    }
  }

  // ----- @page blocks ------------------------------------------------------------

  /** Where the declaration loop of `parse_page_block` stops as written,
      `while token and token.type != ';'`: at a `;`, or at a token that is
      false, which is a container with nothing inside. */
  predicate EndsDeclarationAsWritten(t: Token) { t.kind == Semicolon || !t.Truthy() }

  /** The tokens the loop passes over: white space, and a token other than an
      ATKEYWORD that ends a declaration before it starts. */
  function PageSkip(ends: Token -> bool): Token -> bool
  {
    (t: Token) => t.kind == S || (t.kind != AtKeyword && ends(t))
  }

  /** A declaration's outcome as the page block records it. */
  function DeclarationOutcome(part: Part): Result<(PropertyDeclaration, seq<ParseError>), ParseError>
  {
    match PropertyDeclarationSpec(part)
    case Err(e) => Err(e)
    case Ok(d) => Ok((d, []))
  }

  /** One item of an @page block read from `t` and the unread tokens `rest`,
      with `ends` saying where a declaration stops: an at-rule, which
      `parse_page_at_rule` never accepts, so it is always an error; or a
      declaration, read up to the token that ends it, which is consumed. */
  function PageItemAt(t: Token, rest: seq<Token>, ends: Token -> bool)
    : (r: (Result<(PropertyDeclaration, seq<ParseError>), ParseError>, nat))
    ensures r.1 <= |rest|
  {
    if t.kind == AtKeyword then
      var (rule, n) := ReadAtRuleSpec(t, rest);
      var outcome := match rule
        case Err(e) => Err(e)
        case Ok(a) => Err(ParseError(a.line, a.column, UnknownPageAtRule(a.atKeyword)));
      (outcome, n)
    else
      var k := FindFirst(rest, ends);
      (DeclarationOutcome([t] + rest[..k]), if k < |rest| then k + 1 else k)
  }

  function PageReader(ends: Token -> bool): (read: Reader<Token, PropertyDeclaration, ParseError>)
    ensures Bounded(read)
  {
    (t: Token, rest: seq<Token>) => PageItemAt(t, rest, ends)
  }

  /** The declarations and errors of an @page block whose declarations stop
      where `ends` says. */
  function PageBlockWith(content: seq<Token>, ends: Token -> bool): (seq<PropertyDeclaration>, seq<ParseError>)
  {
    CollectAll(content, PageSkip(ends), PageReader(ends))
  }

  /** `parse_page_block` as written: a declaration also stops at an empty
      container, which is dropped with everything after it in that
      declaration read as a declaration of its own. */
  function PageBlockAsWritten(content: seq<Token>): (seq<PropertyDeclaration>, seq<ParseError>)
  {
    PageBlockWith(content, EndsDeclarationAsWritten)
  }

  /** `parse_page_block` as intended: a declaration runs to its `;` or to the
      end of the block. */
  function PageBlockSpec(content: seq<Token>): (seq<PropertyDeclaration>, seq<ParseError>)
  {
    PageBlockWith(content, IsSemicolon)
  }

  /** `property: f()`, with `f()` a function call with no arguments. */
  function EmptyFunctionExample(): seq<Token>
  {
    [Atom(Ident, Lit("a"), TextValue(Lit("a")), None, 1, 1),
     Atom(Colon, Lit(":"), TextValue(Lit(":")), None, 1, 2),
     FunctionCall(Function, Lit("f("), Lit(")"), Lit("f"), [], 1, 3)]
  }

  /** As written, the empty function call ends the declaration before it is
      read: the value is reported missing and the declaration is lost. */
  lemma {:induction false} EmptyFunctionDropped()
    ensures PageBlockAsWritten(EmptyFunctionExample()) == ([], [ParseError(1, 2, ExpectedPropertyValue)])
  {
    var ts := EmptyFunctionExample();
    var name, colon, f := ts[0], ts[1], ts[2];
    assert ts[1..] == [colon, f];
    FindFirstIs([colon, f], EndsDeclarationAsWritten, 1);
    assert [name] + [colon, f][..1] == [name, colon];
    assert DropWhile([colon], IsS) == [colon];
    assert [colon][1..] == [];
    assert CoreDeclaration([name, colon]) == Err(ErrorAt(colon, ExpectedPropertyValue));
    var e := ErrorAt(colon, ExpectedPropertyValue);
    assert PageItemAt(name, ts[1..], EndsDeclarationAsWritten) == (Err(e), 2);
    var read := PageReader(EndsDeclarationAsWritten);
    assert read(ts[0], ts[1..]) == (Err(e), 2);
    CollectOne(ts, PageSkip(EndsDeclarationAsWritten), read, (t, rest) => true);
    ThenError<PropertyDeclaration, ParseError>(e);
  }

  /** The declaration the example holds. */
  function ExampleDeclaration(): PropertyDeclaration
  {
    PropertyDeclaration(Lit("a"), Container(Values, [], [], [EmptyFunctionExample()[2]], 1, 3), NoPriority, 1, 1)
  }

  lemma {:induction false} ExampleDeclarationRead()
    ensures PropertyDeclarationSpec(EmptyFunctionExample()) == Ok(ExampleDeclaration())
  {
    var ts := EmptyFunctionExample();
    var name, colon, f := ts[0], ts[1], ts[2];
    assert ts == [name] + [] + [colon] + [] + [f];
    assert ValueShape([f]);
    PlainRoundTrip(name, [], colon, [], [f]);
    LowerExampleName();
  }

  /** The example's property name is already in lower case. */
  lemma {:induction false} LowerExampleName()
    ensures Lower(ValueText(EmptyFunctionExample()[0])) == Lit("a")
  {
    var a := Lit("a");
    assert a[0] == 'a' as int;
    assert Lower(a)[0] == LowerChar(a[0]) == a[0];
  }

  /** Read as intended, the example is one item: its declaration. */
  lemma {:induction false} ExampleItemRead()
    ensures var ts := EmptyFunctionExample();
            PageItemAt(ts[0], ts[1..], IsSemicolon) == (Ok((ExampleDeclaration(), [])), 2)
  {
    var ts := EmptyFunctionExample();
    FindFirstIs(ts[1..], IsSemicolon, 2);
    assert [ts[0]] + ts[1..][..2] == ts;
    ExampleDeclarationRead();
  }

  /** A block that is one declaration, read to its end, holds that
      declaration alone. */
  lemma {:induction false} PageBlockOne(ts: seq<Token>, d: PropertyDeclaration)
    requires ts != [] && ts[0].kind != S && ts[0].kind != AtKeyword && !IsSemicolon(ts[0])
    requires PageItemAt(ts[0], ts[1..], IsSemicolon) == (Ok((d, [])), |ts| - 1)
    ensures PageBlockSpec(ts) == ([d], [])
  {
    var read := PageReader(IsSemicolon);
    assert read(ts[0], ts[1..]) == (Ok((d, [])), |ts| - 1);
    CollectOne(ts, PageSkip(IsSemicolon), read, (t, rest) => true);
    ThenItem<PropertyDeclaration, ParseError>(d, []);
  }

  /** As intended, the declaration is `a:f()`. */
  lemma {:induction false} EmptyFunctionKept()
    ensures PageBlockSpec(EmptyFunctionExample()) == ([ExampleDeclaration()], [])
  {
    ExampleItemRead();
    PageBlockOne(EmptyFunctionExample(), ExampleDeclaration());
  }

  /** The declaration loop of `parse_page_block`, as intended: from the token
      at `i`, tokens are collected until a `;` or the end of the block; the
      `;` is consumed. */
  method ReadDeclarationTokens(tokens: seq<Token>, i: nat) returns (part: seq<Token>, end: nat)
    requires i < |tokens|
    ensures i < end <= |tokens|
    ensures IsSemicolon(tokens[i]) ==> part == [] && end == i + 1
    ensures !IsSemicolon(tokens[i]) ==>
              var rest := tokens[i + 1..];
              var k := FindFirst(rest, IsSemicolon);
              part == [tokens[i]] + rest[..k] && end == i + 1 + (if k < |rest| then k + 1 else k)
  {
    part := [];
    var token: Option<Token> := Some(tokens[i]);
    end := i + 1;
    while token.Some? && token.value.kind != Semicolon
      invariant end <= |tokens| && end == i + |part| + (if token.Some? then 1 else 0)
      invariant token.Some? ==> token.value == tokens[end - 1]
      invariant token.None? ==> end == |tokens|
      invariant part == tokens[i..i + |part|] && NoSemicolon(part)
      invariant part == [] ==> token == Some(tokens[i])
      decreases |tokens| - end + (if token.Some? then 1 else 0)
    {
      assert tokens[i..i + |part| + 1] == tokens[i..i + |part|] + [tokens[i + |part|]];
      part := part + [token.value];
      if end < |tokens| {
        token := Some(tokens[end]);
        end := end + 1;
      } else {
        token := None;
      }
    }
    if part != [] {
      assert part[0] == tokens[i];
      DeclarationTokensFound(tokens, i, part);
    }
  }

  /** The tokens collected run to the first `;` after `tokens[i]`. */
  lemma {:induction false} DeclarationTokensFound(tokens: seq<Token>, i: nat, part: seq<Token>)
    requires 0 < |part| && i + |part| <= |tokens| && part == tokens[i..i + |part|] && NoSemicolon(part)
    requires i + |part| < |tokens| ==> IsSemicolon(tokens[i + |part|])
    ensures part == [tokens[i]] + tokens[i + 1..][..FindFirst(tokens[i + 1..], IsSemicolon)]
    ensures FindFirst(tokens[i + 1..], IsSemicolon) == |part| - 1
  {
    var rest := tokens[i + 1..];
    forall j | 0 <= j < |part| - 1 ensures !IsSemicolon(rest[j]) {
      assert rest[j] == part[j + 1];
    }
    FindFirstIs(rest, IsSemicolon, |part| - 1);
  }

  /** One declaration of the block, parsed and recorded as `parse_page_block`
      records it. */
  method PageDeclaration(part: Part) returns (outcome: Result<(PropertyDeclaration, seq<ParseError>), ParseError>)
    ensures outcome == DeclarationOutcome(part)
  {
    var declaration := ParsePropertyDeclaration(part);
    outcome := if declaration.Ok? then Ok((declaration.value, [])) else Err(declaration.error);
  }

  /** The item starting at `tokens[i]`, a token the loop does not pass over:
      an at-rule, always an error, or the declaration up to the next `;`. */
  method ParsePageItem(tokens: seq<Token>, i: nat)
    returns (outcome: Result<(PropertyDeclaration, seq<ParseError>), ParseError>, end: nat)
    requires i < |tokens| && !PageSkip(IsSemicolon)(tokens[i])
    ensures i < end <= |tokens|
    ensures (outcome, end - (i + 1)) == PageItemAt(tokens[i], tokens[i + 1..], IsSemicolon)
  {
    if tokens[i].kind == AtKeyword {
      outcome, end := ReadPageAtRule(tokens, i);
    } else {
      var part;
      part, end := ReadDeclarationTokens(tokens, i);
      outcome := PageDeclaration(part);
    }
  }

  /** An at-rule in an @page block: read, then refused, since
      `parse_page_at_rule` accepts none. */
  method ReadPageAtRule(tokens: seq<Token>, i: nat)
    returns (outcome: Result<(PropertyDeclaration, seq<ParseError>), ParseError>, end: nat)
    requires i < |tokens| && tokens[i].kind == AtKeyword
    ensures i < end <= |tokens|
    ensures (outcome, end - (i + 1)) == PageItemAt(tokens[i], tokens[i + 1..], IsSemicolon)
  {
    var rule;
    rule, end := ReadAtRule(tokens[i], tokens, i + 1);
    outcome := if rule.Err? then Err(rule.error)
               else Err(ParseError(rule.value.line, rule.value.column, UnknownPageAtRule(rule.value.atKeyword)));
  }

  /** The block from an item on is that item's outcome followed by the block
      after the tokens it consumed. */
  lemma {:induction false} PageItemRead(tokens: seq<Token>, i: nat,
                     outcome: Result<(PropertyDeclaration, seq<ParseError>), ParseError>, end: nat)
    requires i < end <= |tokens| && !PageSkip(IsSemicolon)(tokens[i])
    requires (outcome, end - (i + 1)) == PageItemAt(tokens[i], tokens[i + 1..], IsSemicolon)
    ensures PageBlockSpec(tokens[i..]) == Then(outcome, PageBlockSpec(tokens[end..]))
  {
    CollectItem(tokens, i, PageSkip(IsSemicolon), PageReader(IsSemicolon), outcome, end);
  }

  /** Reading and recording the item starting at `tokens[i]`. */
  method PageItemStep(tokens: seq<Token>, i: nat, declarations: seq<PropertyDeclaration>, errors: seq<ParseError>)
    returns (declarations': seq<PropertyDeclaration>, errors': seq<ParseError>, next: nat)
    requires i < |tokens| && !PageSkip(IsSemicolon)(tokens[i])
    ensures i < next <= |tokens|
    ensures Join((declarations', errors'), PageBlockSpec(tokens[next..]))
         == Join((declarations, errors), PageBlockSpec(tokens[i..]))
  {
    var outcome, end := ParsePageItem(tokens, i);
    PageItemRead(tokens, i, outcome, end);
    JoinThen((declarations, errors), outcome, PageBlockSpec(tokens[end..]));
    declarations', errors' := Record(declarations, errors, outcome);
    next := end;
  }

  /** One turn of the `parse_page_block` loop: pass over white space, and a
      `;` that leaves no declaration tokens; otherwise read the item starting
      at `i` and record its outcome. */
  method PageStep(tokens: seq<Token>, i: nat, declarations: seq<PropertyDeclaration>, errors: seq<ParseError>)
    returns (declarations': seq<PropertyDeclaration>, errors': seq<ParseError>, next: nat)
    requires i < |tokens|
    ensures i < next <= |tokens|
    ensures Join((declarations', errors'), PageBlockSpec(tokens[next..]))
         == Join((declarations, errors), PageBlockSpec(tokens[i..]))
  {
    if PageSkip(IsSemicolon)(tokens[i]) {
      CollectSkip(tokens, i, PageSkip(IsSemicolon), PageReader(IsSemicolon));
      declarations', errors', next := declarations, errors, i + 1;
    } else {
      declarations', errors', next := PageItemStep(tokens, i, declarations, errors);
    }
  }

  /** `parse_page_block` as intended: the declarations in order, and every
      error in order. The block's at-rules are always none. */
  method ParsePageBlock(body: Token) returns (declarations: seq<PropertyDeclaration>, errors: seq<ParseError>)
    ensures (declarations, errors) == PageBlockSpec(ContentOf(body))
  {
    var tokens := ContentOf(body);
    declarations, errors := [], [];
    var i := 0;
    assert tokens[i..] == tokens;
    JoinNothing(PageBlockSpec(tokens));
    while i < |tokens|
      invariant i <= |tokens|
      invariant Join((declarations, errors), PageBlockSpec(tokens[i..])) == PageBlockSpec(tokens)
      decreases |tokens| - i
    {
      declarations, errors, i := PageStep(tokens, i, declarations, errors);
    }
    assert tokens[i..] == [];
    JoinNothing((declarations, errors));
  }

  /** A declaration followed by its `;` is read on its own: its outcome comes
      first and the rest of the block is read as if it stood alone. */
  lemma {:induction false} PageBlockDeclaration(part: Part, semicolon: Token, rest: seq<Token>)
    requires part[0].kind != S && part[0].kind != AtKeyword && NoSemicolon(part) && IsSemicolon(semicolon)
    ensures PageBlockSpec(part + [semicolon] + rest) == Then(DeclarationOutcome(part), PageBlockSpec(rest))
  {
    var ts := part + [semicolon] + rest;
    var n := |part| - 1;
    assert ts[0] == part[0];
    assert ts[1..] == part[1..] + [semicolon] + rest;
    forall j | 0 <= j < n ensures !IsSemicolon(ts[1..][j]) {
      assert ts[1..][j] == part[j + 1];
    }
    FindFirstIs(ts[1..], IsSemicolon, n);
    assert [part[0]] + ts[1..][..n] == part;
    assert PageItemAt(ts[0], ts[1..], IsSemicolon) == (DeclarationOutcome(part), n + 1);
    CollectNext(ts, 0, PageSkip(IsSemicolon), PageReader(IsSemicolon));
    assert ts[0..] == ts;
    assert ts[1 + (n + 1)..] == rest;
  }

  /** An item that ends inside the tokens it is given: an at-rule at its `;` or
      block, a declaration at its `;`. */
  predicate PageEnds(t: Token, rest: seq<Token>)
  {
    if t.kind == AtKeyword then FindFirst(rest, EndsAtRule) < |rest| else FindFirst(rest, IsSemicolon) < |rest|
  }

  /** An item that ends is read the same whatever follows it. */
  lemma {:induction false} PageItemPrefix(t: Token, a: seq<Token>, b: seq<Token>)
    requires PageEnds(t, a)
    ensures PageItemAt(t, a + b, IsSemicolon) == PageItemAt(t, a, IsSemicolon)
  {
    if t.kind == AtKeyword {
      ReadAtRulePrefix(t, a, b);
    } else {
      FindFirstPrefix(a, b, IsSemicolon);
      var k := FindFirst(a, IsSemicolon);
      PrefixOfAppend(a, b, k);
    }
  }

  /** Every item of `ts` ends inside `ts`. */
  ghost predicate PageItemsEnd(ts: seq<Token>)
  {
    Complete(ts, PageSkip(IsSemicolon), PageReader(IsSemicolon), PageEnds)
  }

  /** Recovery: once every item of `p` has ended, an error in `p` drops nothing
      of what follows, which is read as if it stood alone. */
  lemma {:induction false} PageBlockAppend(p: seq<Token>, q: seq<Token>)
    requires PageItemsEnd(p)
    ensures PageBlockSpec(p + q) == Join(PageBlockSpec(p), PageBlockSpec(q))
  {
    var read := PageReader(IsSemicolon);
    forall t, a, b | PageEnds(t, a) ensures read(t, a + b) == read(t, a) {
      PageItemPrefix(t, a, b);
    }
    CollectAppend(p, q, PageSkip(IsSemicolon), read, PageEnds);
  }
}
