# tinycss core syntax, modelled in Dafny

This project models the core of tinycss, a CSS parser. It has four layers:

- **Two tokenizers.** `tokenize_flat` is the single-regex tokenizer with line and column tracking. The older `tokenize` yields `(type, value)` pairs by longest match.
- **Token records and unescaping passes.** Tokens, container tokens and function tokens, with their re-serialisation (`as_css`). Also the three backslash-unescaping passes applied to token values.
- **The core grammar parser (`CoreParser`).** It covers:
  - the `@charset` header removal and statements;
  - at-rule reading and rulesets;
  - declaration lists, declarations and property values;
  - the `any` and `block` validity checks.
- **The layers above the core:**
  - the CSS 2.1 parser: `!important` priority, `@page` selectors and `@page` blocks;
  - the CSS 3 colour parser: keywords and `#rgb` / `#rrggbb` hashes;
  - `split_on_comma`.

Text is a sequence of Unicode code points (`Chars.Text`), so lone surrogates produced by escapes are representable. The token regular expressions are abstract: `tokenize_flat` receives the match of the combined expression at a position as a function value, and `tokenize` receives one per rule. Everything the tokenizer does with a match is modelled:

- the type chosen from the matched group;
- the value decoding;
- DELIM for no match;
- comment filtering;
- position tracking.

The parser reads a shared iterator of grouped tokens. It is modelled as a token list and an index. Each reader:

- is specified by a function of the unread suffix;
- is implemented by a method with the source's loop;
- returns how many tokens it consumed, whether it succeeded or raised.

The overridable steps (`parse_at_rule`, `parse_declaration`) are function values, so the CSS 2.1 declaration parser plugs into the core declaration-list and ruleset readers.

Modules:

| file | module | models |
|---|---|---|
| chars.dfy | Chars | code points, hex digits, ASCII lower-casing |
| results.dfy | Results | `Option` and `Result` |
| lists.dfy | Lists | dropping leading and trailing runs; the first index with a property; stripping an end marker |
| collect.dfy | Collect | the "for each token: try to read an item, on `ParseError` record it and go on" loop |
| token_data.dfy | TokenData | `Token`, `ContainerToken`, `FunctionToken`, `as_css`, the unescapers |
| tokenizer.dfy | Tokenizer | `tokenizer.tokenize` |
| tokenizer2.dfy | Tokenizer2 | `tokenizer2.tokenize_flat` |
| parsing.dfy | Parsing | `split_on_comma` |
| core.dfy | Core | `CoreParser` and its records |
| css21.dfy | Css21 | `CSS21Parser`, `PropertyDeclaration`, page selectors and blocks |
| color_keywords.dfy | ColorKeywords | the basic and extended colour keyword tables |
| color3.dfy | Color3 | `parse_color`, `parse_color_string`, the hash expressions, `COLOR_KEYWORDS` |

The model follows the code on three points:

- `!important` is recognised case-sensitively.
- An unknown at-rule is an error in `CoreParser`, not a generic rule.
- `parse_color` accepts no function tokens. The `rgb()` branch is commented out.

## Model

| member | source | states |
|---|---|---|
| Chars.Lower | tinycss/core.py:422 | lower-casing keeps the length, changes each character on its own, and leaves no upper-case letter |
| TokenData.NewFunctionToken | tinycss/token_data.py:389-394 | a FUNCTION container keeps its content; its name is the matched name without its final `(` |
| TokenData.ConcatCssAppend | tinycss/token_data.py:347-354 | serialising a token list distributes over concatenation |
| TokenData.ContainerAsCss | tinycss/token_data.py:347-354 | a container serialises as its opening text, its children in order, then its closing text, split at any child |
| TokenData.HexRun | tinycss/token_data.py:44 | the `[0-9a-f]{1,6}` run of an escape is at most the limit, all hex digits, and stops only at the limit, the end or a non-hex character |
| TokenData.CodePointOrReplacement | tinycss/token_data.py:160-165 | an escaped value up to U+10FFFF gives that code point, a larger one gives U+FFFD |
| TokenData.UnescapeIdentity | tinycss/token_data.py:167-178 | text without a backslash is left unchanged by all three unescaping passes |
| TokenData.UnescapePlainRun | tinycss/token_data.py:167-168 | text without a backslash in front of any text comes out of the code-point pass unchanged, ahead of the decoded rest |
| TokenData.HexDigitsValue | tinycss/token_data.py:161 | reading k hex digits written for n back as a hex number gives n, for n < 16^k |
| TokenData.EscapeCodePointRoundTrip | tinycss/token_data.py:160-169 | a six-digit escape followed by a space unescapes to exactly its code point; the rest of the text is unescaped independently |
| TokenData.EscapeEachRoundTrip | tinycss/token_data.py:175-178 | prefixing every character with a backslash is undone by the simple unescape when the text has no LF (`.` does not match LF) |
| TokenData.LineContinuationRemoved | tinycss/token_data.py:171-173 | a backslash followed by a newline (LF, CRLF, CR, FF) is removed and the text before it is untouched |
| Tokenizer.SelectIsLongestEarliest | tinycss/tokenizer.py:103-114 | the chosen rule is the longest match, the earliest rule among equally long ones; there is none exactly when no rule matches a non-empty prefix |
| Tokenizer.SelectCandidate | tinycss/tokenizer.py:104-114 | the inner loop (keep a match only when strictly longer) computes that choice |
| Tokenizer.Yielded | tinycss/tokenizer.py:115-128 | each step advances by at least one character and never past the end |
| Tokenizer.Tokenize | tinycss/tokenizer.py:97-128 | the generator yields the reference lexeme list; with comments kept, the values put together are the input |
| Tokenizer.LexemesRoundTrip | tinycss/tokenizer.py:102-123 | with comments kept, the yielded values concatenate to the input |
| Tokenizer.IgnoringComments | tinycss/tokenizer.py:124-128 | ignoring comments yields the full output with COMMENT and BAD_COMMENT pairs removed, and nothing else changed |
| Tokenizer2.Decode | tinycss/tokenizer2.py:249-328 | raw text kept. Numbers: one of four types; a unit iff text follows the number; INTEGER iff integral with no unit; PERCENTAGE iff the unit is `%`; a DIMENSION unit is lower-case; an integer's value is its literal. An unclosed string at the end becomes STRING, elsewhere a BAD_STRING keeping its raw text |
| Tokenizer2.UnclosedStringAtEnd | tinycss/tokenizer2.py:307-313 | a string left open at the end of the input has the value it would have with its closing quote |
| Tokenizer2.Lex | tinycss/tokenizer2.py:234-341 | a token is a non-empty prefix of the rest; punctuation is one character of its own type; no match gives a one-character DELIM; otherwise the match length |
| Tokenizer2.FindNewlines | tinycss/tokenizer2.py:347 | the end of the last newline lies within the text, and is 0 exactly when there is no newline |
| Tokenizer2.FindNewlinesAppend | tinycss/tokenizer2.py:347-353 | the newlines of a concatenation are those of both parts (when no CRLF is split), the last one's end shifted |
| Tokenizer2.AdvanceMatchesPositionOf | tinycss/tokenizer2.py:346-353 | advancing the position of a prefix over the next token gives the position of the longer prefix |
| Tokenizer2.NextLexeme | tinycss/tokenizer2.py:234-341 | the loop body computes the token at a position |
| Tokenizer2.AdvancePosition | tinycss/tokenizer2.py:346-353 | the line and column update computes the position after a token |
| Tokenizer2.TokenizeFlat | tinycss/tokenizer2.py:204-354 | the token list is the reference scan; with comments kept, the tokens' text concatenates to the source |
| Tokenizer2.ScanRoundTrip | tinycss/tokenizer2.py:233-346 | with comments kept, the tokens' text concatenates to the input |
| Tokenizer2.IgnoringComments | tinycss/tokenizer2.py:342-344 | ignoring comments removes exactly the COMMENT and BAD_COMMENT tokens; the positions of the others are unchanged |
| Tokenizer2.LexKeepsCrlf | tinycss/tokenizer2.py:233-341 | a token never ends between a CR and an LF, given that no match does |
| Tokenizer2.ScanPositions | tinycss/tokenizer2.py:346-353 | from any position, every token is placed at the line and column reached by the text before it |
| Tokenizer2.TokenPositions | tinycss/tokenizer2.py:227-229 | starting at line 1 column 1, each token's line and column are those of the end of the source text before it |
| Parsing.PiecesCount | tinycss/parsing.py:26-35 | there is one more piece than separators |
| Parsing.PiecesRejoin | tinycss/parsing.py:26-35 | joining the pieces with the separators between them gives back the list |
| Parsing.PiecesHaveNoSeparator | tinycss/parsing.py:28-33 | no piece holds a separator |
| Parsing.SplitOnComma | tinycss/parsing.py:17-35 | the loop computes the pieces between top-level `,` DELIMs, one more than commas, and the pieces rejoin to the input |
| Collect.Record | tinycss/core.py:361-367 | recording a read item appends it and its recovered errors; recording a raised error appends only the error |
| Collect.CollectSkip | tinycss/core.py:355 | a skipped token contributes nothing |
| Collect.CollectNext | tinycss/core.py:356-367 | a read item's outcome comes first, and reading resumes after the tokens it consumed |
| Collect.CollectAppend | tinycss/core.py:352-369 | reading a concatenation gives the two results joined, when every item of the first part ends within it |
| Core.ValidateAny | tinycss/core.py:622-634 | every error is "unmatched" or "unexpected" |
| Core.ValidateAnyAccepts | tinycss/core.py:622-634 | a token passes exactly when it is an `any` atom, or a FUNCTION, `(` or `[` whose children all pass. The error names a type that is neither; it is "unmatched" exactly for `}`, `)`, `]` |
| Core.FirstInvalidAccepts | tinycss/core.py:623-625 | a token list passes exactly when each token does, with the same error shape |
| Core.ValidateBlockAccepts | tinycss/core.py:606-611 | a block passes exactly when nested blocks pass, `;` and ATKEYWORD are allowed, and every other token passes `any` |
| Core.ValidateAll | tinycss/core.py:470-471 | the validation loop reports the first failing token's error |
| Core.ReadAtRuleExtent | tinycss/core.py:426-443 | "incomplete at-rule" exactly when no `{` or `;` follows: everything is consumed, and the error is at the last token (the keyword when nothing follows). Otherwise reading stops at the first `{` or `;` |
| Core.ReadAtRuleHead | tinycss/core.py:430-442 | the head is the tokens before the terminator with leading and trailing white space removed, inner white space kept |
| Core.ReadAtRuleBody | tinycss/core.py:432-439 | every head token passes `any`; there is a body iff the terminator is `{`, and then it is that block; the at-keyword is lower-case |
| Core.ReadAtRulePrefix | tinycss/core.py:426-438 | tokens after the terminator do not affect the result |
| Core.PopTrailingS | tinycss/core.py:430-431 | popping trailing S tokens drops exactly the trailing white-space run |
| Core.FinishAtRule | tinycss/core.py:430-439 | the terminator step builds the at-rule from the trimmed head |
| Core.ReadAtRule | tinycss/core.py:404-443 | the method gives the reference result and consumes the reference number of tokens |
| Core.ScanAtRule | tinycss/core.py:423-442 | reading stops at the first `{` or `;`, or at the end; the head collected so far is the tokens before it with leading white space skipped |
| Core.CoreParseAtRule | tinycss/core.py:398-402 | always an error at the rule's position: "mis-placed @charset" exactly for `@charset`, otherwise "unknown at-rule" with the context and keyword |
| Core.DeclarationListCount | tinycss/core.py:515-523 | each non-blank part gives exactly one declaration or one error |
| Core.DeclarationPartsShape | tinycss/core.py:500-513 | the parts are non-empty, hold no `;`, and do not start with white space |
| Core.SplitDeclarations | tinycss/core.py:500-513 | the splitting loop computes the non-blank parts between `;` with leading white space skipped |
| Core.SplitToken | tinycss/core.py:503-510 | one token of the splitting loop keeps the invariant: the finished parts and the current part are those of the tokens read so far |
| Core.ParseParts | tinycss/core.py:515-523 | declarations and errors are the successes and failures of the parts, in order |
| Core.ParseDeclarationList | tinycss/core.py:485-523 | the method computes the declaration-list reference |
| Core.RulesetShape | tinycss/core.py:466-483 | "no declaration block" exactly when no `{` appears, with the error at the last token. Otherwise the selector is the SELECTOR container of the tokens before the first `{`, each passing `any`, at the first token's position |
| Core.RulesetExtent | tinycss/core.py:466-483 | "no declaration block" exactly when no `{` appears, with every token consumed and the error at the last one; otherwise reading stops at the first `{` |
| Core.RulesetSelector | tinycss/core.py:468-479 | the selector is the SELECTOR container of exactly the tokens before the first `{`, each passing `any`; the ruleset sits at the first token |
| Core.RulesetDeclarations | tinycss/core.py:476-480 | the ruleset's declarations and errors are those of its block's content |
| Core.RulesetPrefix | tinycss/core.py:467-480 | tokens after the block do not affect the ruleset |
| Core.FinishRuleset | tinycss/core.py:468-480 | the block step builds the ruleset from the selector tokens and the block |
| Core.ParseRuleset | tinycss/core.py:445-483 | the method gives the reference result and consumes the reference number of tokens |
| Core.ScanRuleset | tinycss/core.py:466-482 | the loop stops at the first `{`, having collected every token before it as selector parts, or consumes everything when there is none |
| Core.FirstInvalidValueAccepts | tinycss/core.py:585-590 | a value passes exactly when each `{` block is a valid block and every other token passes `any` |
| Core.ParseValueAccepts | tinycss/core.py:581-595 | the value is accepted exactly when every token after the leading white space passes. The result is the tokens with leading and trailing white space removed and inner white space kept |
| Core.ParseValue | tinycss/core.py:568-595 | the method computes the reference value |
| Core.ParseValueShape | tinycss/core.py:581-595 | a non-empty parsed value has no white space at either end and every token passes |
| Core.ParseValueOf | tinycss/core.py:581-595 | white space around a well-formed value is removed and the value is returned unchanged |
| Core.ParseDeclaration | tinycss/core.py:525-566 | the method computes the reference declaration |
| Core.SkipToColon | tinycss/core.py:550-558 | the loop after the name stops at the first token that is not white space; the remaining tokens are those after the name with leading white space removed |
| Core.CoreDeclarationShape | tinycss/core.py:542-566 | a parsed declaration starts with an IDENT. Its name is that ident lower-cased, at its position. The value is a VALUES container of a well-formed value, at its first token |
| Core.CoreDeclarationErrors | tinycss/core.py:543-558 | a non-IDENT first token gives "expected a property name" at that token; an IDENT followed only by white space gives "expected ':'" at the last token |
| Core.DeclarationRoundTrip | tinycss/core.py:540-566 | `name ws : ws value ws` parses to the lower-cased name and the value exactly |
| Core.ParseStatement | tinycss/core.py:355-367 | one statement is read by the at-rule or the ruleset path, with the reference consumption |
| Core.ParseAtRuleStatement | tinycss/core.py:356-360 | an at-rule statement is the at-rule read and passed to the `parse_at_rule` hook; an error from either is the outcome, with the reference consumption |
| Core.StatementStep | tinycss/core.py:354-367 | one loop iteration keeps the statements and errors in line with the reference |
| Core.ParseStatements | tinycss/core.py:338-369 | the method computes the reference statements and errors |
| Core.StatementAtPrefix | tinycss/core.py:355-365 | tokens after a statement do not affect it |
| Core.StatementsAppend | tinycss/core.py:352-369 | a stylesheet made of complete statements followed by more tokens parses as the two parts joined. An error never discards a sibling statement |
| Core.RemoveAtCharset | tinycss/core.py:217-234 | the first four tokens are dropped exactly when they are `@charset`, one space, a double-quoted STRING and `;`; otherwise nothing changes |
| Core.RemoveCharsetRule | tinycss/core.py:226-233 | a `@charset "name";` header is removed, and only it |
| Core.ParseStylesheet | tinycss/core.py:305-323 | the method computes the stylesheet reference |
| Core.CharsetIgnored | tinycss/core.py:317-323 | with an encoding, a leading `@charset` rule leaves no statement and no error |
| Core.CharsetHeaderRead | tinycss/core.py:422-439 | the header reads as the at-rule `@charset` with the string as its head and no body, consuming three tokens |
| Core.CharsetHeaderOutcome | tinycss/core.py:398-399 | the core parser rejects that rule as a mis-placed `@charset` at its position |
| Core.CharsetHeaderStatements | tinycss/core.py:352-369 | a lone header parses to no statement and exactly that error |
| Core.CharsetWithoutEncoding | tinycss/core.py:317-323 | without an encoding, the header stays, and its error comes before those of the rest of the stylesheet |
| Css21.ParseValuePriority | tinycss/css21.py:161-182 | the popping loop computes the priority reference |
| Css21.PriorityMarked | tinycss/css21.py:167-178 | a value ending in `!important`, with any white space around the `!`, yields its trailing-trimmed prefix as important; an empty prefix is "expected a value before !important" |
| Css21.PriorityRoundTrip | tinycss/css21.py:161-182 | a value without trailing white space followed by the marker yields exactly that value, important |
| Css21.PriorityFound | tinycss/css21.py:167-178 | an important result is a proper prefix ending in non-space, the rest being the marker. The error happens only when the whole content is the marker, and it is reported at the container |
| Css21.PriorityAbsent | tinycss/css21.py:167-182 | no priority exactly when no suffix of the content is the marker; the content is kept unchanged |
| Css21.ParsePropertyDeclaration | tinycss/css21.py:153-158 | the method computes the property-declaration reference |
| Css21.PropertyDeclarationKeeps | tinycss/css21.py:153-158 | core errors pass through. Name, position and value position are the core declaration's. Without priority the value is unchanged; with `!important` it is a proper prefix followed by the marker |
| Css21.ImportantRoundTrip | tinycss/css21.py:153-182 | `name : value !important` parses to the lower-cased name, exactly the value, and important priority |
| Css21.PlainRoundTrip | tinycss/css21.py:153-182 | `name : value`, with a value not ending in `important`, parses to the lower-cased name, exactly the value, and no priority |
| Css21.PageSelectorNames | tinycss/css21.py:92-95 | each page selector is read from its own name and from nothing else |
| Css21.PageSelectorAccepts | tinycss/css21.py:79-96 | an empty head gives no selector. `:` plus an IDENT named `first`, `left` or `right` gives that selector. Anything else is "invalid @page selector" at the first token |
| Css21.ReadDeclarationTokens | tinycss/css21.py:130-133 | on the intended reading of the `## Findings` row for line 131, a declaration's tokens run from the current token to the next `;`, which is consumed, or to the end |
| Css21.PageDeclaration | tinycss/css21.py:134-139 | one declaration's outcome is its property declaration, or the error it raised |
| Css21.ParsePageItem | tinycss/css21.py:117-139 | one item is an at-rule (always an error, `parse_page_at_rule` accepting none) or a declaration up to its `;` (the intended reading of line 131), with the reference consumption |
| Css21.ReadPageAtRule | tinycss/css21.py:118-127 | an at-rule in an @page block is read and then always refused, as an error at the rule or the error of reading it, with the reference consumption |
| Css21.PageStep | tinycss/css21.py:117-139 | one loop iteration keeps the declarations and errors in line with the intended page-block reference |
| Css21.ParsePageBlock | tinycss/css21.py:99-140 | the method computes the intended page-block reference (declarations run to their `;`); the code's reading is `Css21.PageBlockAsWritten` |
| Css21.PageBlockDeclaration | tinycss/css21.py:129-139 | a declaration followed by `;` contributes its outcome, then the rest of the block follows |
| Css21.PageBlockAppend | tinycss/css21.py:116-140 | a block made of complete items followed by more tokens parses as the two parts joined |
| Css21.EmptyFunctionKept | tinycss/css21.py:129-139 | `a:f()` in a page block gives the declaration `a` with the value `f()` |
| Color3.LastNamed | tinycss/color3.py:260-265 | the entry a name maps to after `update` is the last one with that name; none exactly when no entry has it |
| Color3.KeywordColor | tinycss/color3.py:253-265 | keyword channels are at most 255. Alpha is 1, except for `transparent` (alpha 0). `currentColor` only for `currentcolor` |
| Color3.NotInTable | tinycss/color3.py:80-249 | neither special keyword appears in the basic or extended tables |
| Color3.SpecialKeywords | tinycss/color3.py:253-256 | `currentcolor` is `currentColor` and `transparent` is (0, 0, 0, 0) |
| Color3.KeywordFound | tinycss/color3.py:260-265 | a name in the table maps to the colour of its last entry with alpha 1 |
| Color3.KeywordMissing | tinycss/color3.py:260-265 | a name is unknown exactly when it is neither special nor in the table |
| Color3.MatchHash | tinycss/color3.py:73-76 | a match has three groups of the pattern's width, all hex digits |
| Color3.Channel | tinycss/color3.py:56-57 | a channel (`int(group * multiplier, 16)`) is at most 255 |
| Color3.HashColor | tinycss/color3.py:53-58 | the first matching pattern gives an opaque colour with channels at most 255 |
| Color3.HexColorIsReference | tinycss/color3.py:53-58 | the pattern loop equals the digit-by-digit reading: `#rgb` gives 17 times each digit, `#rrggbb` gives each pair, anything else gives nothing |
| Color3.HexColorAccepts | tinycss/color3.py:73-76 | a hash is a colour exactly when it is `#` followed by 3 or 6 hex digits (either case), and then it is opaque |
| Color3.HexRoundTrip | tinycss/color3.py:53-58 | writing any (r, g, b) as `#rrggbb` and parsing it gives (r, g, b) back with alpha 1 |
| Color3.ShortHexDoubles | tinycss/color3.py:74-76 | `#xyz` is the same colour as `#xxyyzz`, with each channel 17 times its digit |
| Color3.HexCaseInsensitive | tinycss/color3.py:74-75 | lower-casing a hash does not change its colour |
| Color3.MatchLoose | tinycss/color3.py:74-75 | as written, `$` also matches before one final LF, so a pattern accepts the value or the value without that LF |
| Color3.AsWrittenNewline | tinycss/color3.py:53-58 | the colour as written is the intended colour, or that of the value without a final LF |
| Color3.TrailingNewlineAccepted | tinycss/color3.py:73-76 | as written, `#abc` followed by LF is the colour (0xaa, 0xbb, 0xcc); the intended reading rejects it |
| Color3.EscapedNewlineHash | tinycss/tokenizer2.py:277-280 | the HASH `#abc\a` has the value `#abc` followed by LF after unescaping |
| Color3.ParseColor | tinycss/color3.py:39-58 | only an IDENT or a HASH is a colour, a HASH read with the strict pattern of the `## Findings` row; an RGBA result has channels at most 255 and alpha at most 1 |
| Color3.ParseColorString | tinycss/color3.py:23-36 | a colour only when the string is exactly one IDENT or HASH token |
| Color3.IdentKeyword | tinycss/color3.py:50-51 | an IDENT whose lower-cased value names a table entry is that entry's colour, the last of that name |
| Color3.IdentUnknown | tinycss/color3.py:50-51 | an IDENT is no colour exactly when its lower-cased value is neither special nor in the table |

## Left out

- Byte decoding and files are not modelled. This covers `parse_stylesheet_file` and `parse_stylesheet_bytes` (tinycss/core.py:246-303) and charset sniffing. Input is decoded text.
- `tokenize_grouped` is not part of this model. The parser takes already grouped tokens as its input. `parse_color_string` likewise takes the grouped tokens of the already stripped string.
- `parse_style_attr` (tinycss/core.py:325-334) is `parse_declaration_list` applied to grouped tokens; only `Core.ParseDeclarationList` is modelled.
- The token regular expressions are abstract. A match is a function value: `tokenize` gets one per rule, and `tokenize_flat` gets one for the whole expression (its group and its length). That a concrete expression matches what the CSS 2.1 grammar says is not proved.
- Chars.Lower: lower-cases ASCII letters only. Python's `str.lower` is full Unicode (the Kelvin sign lower-cases to `k`), so a keyword written with such characters is not matched as the source would match it.
- Color3.HexColorAccepts: `\d` accepts ASCII digits only. In Python 3 it also matches other Unicode decimal digits, which `int(..., 16)` accepts too.
- Floating point is not modelled. A NUMBER keeps its literal text. A colour keeps integer channels over 255 in place of `r / 255.` floats, with alpha 0 or 1.
- `CSS21Parser.parse_at_rule` (tinycss/css21.py:68-76) is not modelled: its dispatch, the `PageRule` it appends, and the "missing block" error. Its signature takes three arguments where `parse_statements` passes four.
- The at-rule hooks of the model return a rule or an error. A hook that appends to the previous rules or returns `None` is not represented. A hook also cannot read `previous_rules` or append to `errors`, which the `parse_at_rule` docstring (tinycss/core.py:371-402) allows, e.g. for checking that `@import` comes before other rules.
- `@import` and `@media` are not part of this model.
- The `at_rules` result of `parse_page_block` is always empty, because `parse_page_at_rule` accepts nothing; the model returns only declarations and errors.
- Core.RemoveAtCharset: `string.as_css[0]` on a STRING with empty text would raise in the source. The model treats that case as "not a header". The tokenizer never produces such a STRING.
- The keyword tables' entry type only requires a name to be neither special keyword, which is all the proofs use; that every name is lower-case is not checked.
- Line and column tracking is modelled for `tokenize_flat` only; `tokenize` yields no positions.
- `Token.__repr__`, `pretty()` and the C accelerator are not modelled.
- ReadDeclarationTokens: follows the intended reading of tinycss/css21.py:131 (the first `## Findings` row) and stops only at `;`. As written, `while token and …` also stops at an empty container and drops it; that reading is `Css21.PageBlockAsWritten` (with `Css21.EndsDeclarationAsWritten`), shown by `Css21.EmptyFunctionDropped`.
- ParsePageItem: reads a declaration up to the next `;` only, on the same intended reading; the as-written item, which also ends at an empty container, is `Css21.PageItemAt` with `Css21.EndsDeclarationAsWritten`, used by `Css21.PageBlockAsWritten`.
- PageStep: passes over S and a lone `;` only, on the same intended reading; as written the loop also passes over an empty container at the start of an item, which `Css21.PageSkip(Css21.EndsDeclarationAsWritten)` in `Css21.PageBlockAsWritten` captures.
- ParsePageBlock: computes the intended block `Css21.PageBlockSpec`, not the code's reading `Css21.PageBlockAsWritten`; the two differ exactly when a declaration holds an empty container, as `Css21.EmptyFunctionDropped` and `Css21.EmptyFunctionKept` show for `a:f()`.
- ParseColor: reads a HASH with the strict pattern `Color3.HexColor` (the second `## Findings` row), so the value `#abc` + LF is no colour here. The code's `$` accepts it; that reading is `Color3.HexColorAsWritten`, related to the strict one by `Color3.AsWrittenNewline` and shown by `Color3.TrailingNewlineAccepted`.

## Findings

| source | as written | input that shows it | evidently intended | confidence | as-written member | corrected member |
|---|---|---|---|---|---|---|
| tinycss/css21.py:131 | `while token and token.type != ';'` also stops at a container token that is false, i.e. empty, and drops it | the `@page` block content `a:f()`, whose `f()` has no arguments: the declaration loses its value and "expected a property value" is reported | a declaration runs to its `;` or to the end of the block | not executed | Css21.EmptyFunctionDropped | Css21.EmptyFunctionKept |
| tinycss/color3.py:74-75 | `$` without MULTILINE also matches before a final LF | the HASH `#abc\a` has the value `#abc` + LF, which is accepted as (0xaa, 0xbb, 0xcc) | only `#` plus exactly 3 or 6 hex digits is a colour | not executed | Color3.TrailingNewlineAccepted | Color3.HexColorAccepts |
