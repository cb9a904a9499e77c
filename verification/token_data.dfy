/** Token records shared by both tokenizers, their serialisation back to CSS,
    and the three backslash-unescaping passes applied to token values. */
module TokenData {
  import opened Chars
  import opened Results

  /** The `type` string of a token. Punctuation tokens are named by their character
      (`Colon` is ':', `LeftBrace` is '{', ...); `Selector` and `Values` are the
      container types the core parser builds for a ruleset's selector and a
      declaration's value. */
  datatype Kind =
    | S | Ident | AtKeyword | Hash | Uri | BadUri | UnicodeRange
    | Integer | Number | Percentage | Dimension
    | String | BadString | Comment | BadComment | Cdo | Cdc | Delim
    | Colon | Semicolon | LeftBrace | RightBrace | LeftParen | RightParen
    | LeftBracket | RightBracket | Function | Includes | DashMatch
    | Selector | Values

  /** A token's `value`: decoded text, an `int`, or a `float` kept as the literal
      it was read from. */
  datatype Value = TextValue(text: Text) | IntValue(i: int) | FloatValue(literal: Text)

  /** `Token`, `ContainerToken` and `FunctionToken`. */
  datatype Token =
    | Atom(kind: Kind, asCss: Text, value: Value, unit: Option<Text>, line: int, column: int)
    | Container(kind: Kind, cssStart: Text, cssEnd: Text, content: seq<Token>, line: int, column: int)
    | FunctionCall(kind: Kind, cssStart: Text, cssEnd: Text, functionName: Text,
                   content: seq<Token>, line: int, column: int)
  {
    /** `is_container`: false for a plain token, true for every container. */
    predicate IsContainer()
    {
      !Atom?
    }

    /** `len(token)` of a container: the number of its children. */
    function Length(): (n: nat)
      requires IsContainer()
      ensures n == |content|
    {
      |content|
    }

    /** Python truth value: a plain token has no `__len__` and is always true;
        a container is false exactly when its content is empty. */
    predicate Truthy()
    {
      Atom? || |content| > 0
    }
  }

  /** The text of a value that holds text; the empty text otherwise.
      The tokenizer gives every IDENT, ATKEYWORD, HASH, STRING and DELIM a text value. */
  function TextOf(v: Value): Text
  {
    if v.TextValue? then v.text else []
  }

  /** A plain token's text value (`token.value`); a container has none. */
  function ValueText(t: Token): Text
  {
    if t.Atom? then TextOf(t.value) else []
  }

  /** The content of a container; a plain token has none. */
  function ContentOf(t: Token): seq<Token>
  {
    if t.Atom? then [] else t.content
  }

  /** `FunctionToken(...)`: the name is given with its `(` marker, which is removed. */
  function NewFunctionToken(cssStart: Text, cssEnd: Text, name: Text, content: seq<Token>,
                            line: int, column: int): (t: Token)
    ensures t.FunctionCall? && t.kind == Function && t.content == content
    ensures |name| > 0 ==> t.functionName + [name[|name| - 1]] == name
    ensures |name| > 0 ==> |t.functionName| == |name| - 1
  {
    FunctionCall(Function, cssStart, cssEnd, if |name| > 0 then name[..|name| - 1] else [],
                 content, line, column)
  }

  /** `as_css`: the token as read from the source, containers recursively. */
  function AsCss(t: Token): Text
    decreases t, 1
  {
    if t.Atom? then t.asCss else t.cssStart + ConcatCss(t.content) + t.cssEnd
  }

  /** `''.join(token.as_css for token in ts)` */
  function ConcatCss(ts: seq<Token>): Text
    decreases ts, 0
  {
    if ts == [] then [] else AsCss(ts[0]) + ConcatCss(ts[1..])
  }

  /** Serialising a list is serialising its parts one after the other. */
  lemma {:induction false} ConcatCssAppend(a: seq<Token>, b: seq<Token>)
    ensures ConcatCss(a + b) == ConcatCss(a) + ConcatCss(b)
  {
    if a == [] {
      assert a + b == b;
    } else {
      assert (a + b)[1..] == a[1..] + b;
      ConcatCssAppend(a[1..], b);
    }
  }

  /** A container serialises as its opening text, each child's CSS, and its
      closing text; so it is exactly as long as those pieces together. */
  lemma {:induction false} ContainerAsCss(t: Token, i: nat)
    requires t.IsContainer() && i <= |t.content|
    ensures AsCss(t) == t.cssStart + ConcatCss(t.content[..i]) + ConcatCss(t.content[i..]) + t.cssEnd
  {
    var a, b := t.content[..i], t.content[i..];
    assert t.content == a + b;
    ConcatCssAppend(a, b);
    var x, y := ConcatCss(a), ConcatCss(b);
    assert t.cssStart + (x + y) == t.cssStart + x + y;
  }

  // ----- Unescaping --------------------------------------------------------

  predicate NoBackslash(s: Text)
  {
    forall i :: 0 <= i < |s| ==> s[i] != BACKSLASH
  }

  /** How many hex digits, at most `limit`, start `s` (the greedy `[0-9a-f]{1,6}`). */
  function HexRun(s: Text, limit: nat): (n: nat)
    ensures n <= limit && n <= |s|
    ensures forall i :: 0 <= i < n ==> IsHexDigit(s[i])
    ensures n < limit && n < |s| ==> !IsHexDigit(s[n])
  {
    if limit == 0 || s == [] || !IsHexDigit(s[0]) then 0 else 1 + HexRun(s[1..], limit - 1)
  }

  /** The optional `\r\n|[ \n\r\t\f]` after a code-point escape: how many characters it takes. */
  function EscapeTail(s: Text): (n: nat)
    ensures n <= 2 && n <= |s|
  {
    if |s| >= 2 && s[0] == CR && s[1] == LF then 2
    else if |s| >= 1 && IsWhitespace(s[0]) then 1
    else 0
  }

  /** `_unicode_replace`: a code point up to `sys.maxunicode`, else U+FFFD. */
  function CodePointOrReplacement(v: nat): (r: Text)
    ensures v <= 0x10FFFF ==> r == [v]
    ensures v > 0x10FFFF ==> r == [REPLACEMENT]
  {
    if v <= 0x10FFFF then [v] else [REPLACEMENT]
  }

  /** `UNICODE_UNESCAPE`: each `\` followed by one to six hex digits (and optionally one
      whitespace character or CRLF) becomes the code point those digits name,
      scanning left to right without overlap. */
  function UnicodeUnescape(s: Text): Text
    decreases |s|
  {
    if s == [] then []
    else if s[0] == BACKSLASH && |s| > 1 && IsHexDigit(s[1]) then
      var n := HexRun(s[1..], 6);
      var w := EscapeTail(s[1 + n..]);
      CodePointOrReplacement(HexValue(s[1..1 + n])) + UnicodeUnescape(s[1 + n + w..])
    else [s[0]] + UnicodeUnescape(s[1..])
  }

  /** `NEWLINE_UNESCAPE`: deletes each `\` followed by `\n`, `\r\n`, `\r` or `\f`. */
  function NewlineUnescape(s: Text): Text
    decreases |s|
  {
    if s == [] then []
    else if s[0] == BACKSLASH && |s| > 1 && IsNewlineChar(s[1]) then
      if s[1] == CR && |s| > 2 && s[2] == LF then NewlineUnescape(s[3..])
      else NewlineUnescape(s[2..])
    else [s[0]] + NewlineUnescape(s[1..])
  }

  /** `SIMPLE_UNESCAPE`: each `\` followed by a character other than `\n` becomes
      that character. */
  function SimpleUnescape(s: Text): Text
    decreases |s|
  {
    if s == [] then []
    else if s[0] == BACKSLASH && |s| > 1 && s[1] != LF then [s[1]] + SimpleUnescape(s[2..])
    else [s[0]] + SimpleUnescape(s[1..])
  }

  /** The IDENT/ATKEYWORD/HASH/FUNCTION decoding: code-point escapes, then simple escapes. */
  function UnescapeName(s: Text): Text
  {
    SimpleUnescape(UnicodeUnescape(s))
  }

  /** A character other than a backslash is kept as it is. */
  lemma {:induction false} UnescapePlain(c: CodePoint, rest: Text)
    requires c != BACKSLASH
    ensures UnicodeUnescape([c] + rest) == [c] + UnicodeUnescape(rest)
  {
    assert ([c] + rest)[1..] == rest;
  }

  /** Text without backslashes is kept as it is in front of what follows. */
  lemma {:induction false} UnescapePlainRun(p: Text, rest: Text)
    requires NoBackslash(p)
    ensures UnicodeUnescape(p + rest) == p + UnicodeUnescape(rest)
  {
    if p == [] {
      assert p + rest == rest;
    } else {
      assert p + rest == [p[0]] + (p[1..] + rest);
      UnescapePlain(p[0], p[1..] + rest);
      UnescapePlainRun(p[1..], rest);
      assert [p[0]] + (p[1..] + UnicodeUnescape(rest)) == p + UnicodeUnescape(rest);
    }
  }

  /** Text without backslashes passes through each pass unchanged. */
  lemma {:induction false} UnescapeIdentity(s: Text)
    requires NoBackslash(s)
    ensures UnicodeUnescape(s) == s
    ensures NewlineUnescape(s) == s
    ensures SimpleUnescape(s) == s
  {
    if s != [] {
      UnescapeIdentity(s[1..]);
    }
  }

  // A writer for each escape form, and the round trip through its reader.

  function Pow16(k: nat): (p: nat)
    ensures p >= 1
  {
    if k == 0 then 1 else 16 * Pow16(k - 1)
  }

  /** The `k`-digit lower-case hexadecimal numeral for `n`. */
  function HexDigits(n: nat, k: nat): (ds: Text)
    ensures |ds| == k
    ensures forall i :: 0 <= i < k ==> IsHexDigit(ds[i])
  {
    if k == 0 then [] else HexDigits(n / 16, k - 1) + [HexDigit(n % 16)]
  }

  lemma {:induction false} HexDigitsValue(n: nat, k: nat)
    requires n < Pow16(k)
    ensures HexValue(HexDigits(n, k)) == n
  {
    if k > 0 {
      var ds := HexDigits(n, k);
      assert ds[..k - 1] == HexDigits(n / 16, k - 1);
      assert ds[k - 1] == HexDigit(n % 16);
      HexDigitsValue(n / 16, k - 1);
      assert HexValue(ds) == (n / 16) * 16 + n % 16;
    }
  }

  lemma {:induction false} HexRunOfDigits(s: Text, k: nat)
    requires k <= |s|
    requires forall i :: 0 <= i < k ==> IsHexDigit(s[i])
    ensures HexRun(s, k) == k
  {
    if k > 0 {
      HexRunOfDigits(s[1..], k - 1);
    }
  }

  /** A code point written as `\` + six hex digits + a space. */
  function EscapeCodePoint(c: CodePoint): (e: Text)
    ensures |e| == 8 && e[0] == BACKSLASH
  {
    [BACKSLASH] + HexDigits(c, 6) + [SPACE]
  }

  /** A code-point escape decodes to the code point it was written for, and the
      text after it is decoded on its own. */
  lemma {:induction false} EscapeCodePointRoundTrip(c: CodePoint, rest: Text)
    ensures UnicodeUnescape(EscapeCodePoint(c) + rest) == [c] + UnicodeUnescape(rest)
  {
    var s := EscapeCodePoint(c) + rest;
    var ds := HexDigits(c, 6);
    assert s[1..] == ds + [SPACE] + rest;
    HexRunOfDigits(s[1..], 6);
    assert s[1..7] == ds;
    HexDigitsValue(c, 6);
    assert s[7..] == [SPACE] + rest;
    assert s[8..] == rest;
  }

  /** Every character written as `\` + that character. */
  function EscapeEach(s: Text): (e: Text)
    ensures |e| == 2 * |s|
  {
    if s == [] then [] else [BACKSLASH, s[0]] + EscapeEach(s[1..])
  }

  /** Simple unescaping undoes `EscapeEach` on text without `\n`. */
  lemma {:induction false} EscapeEachRoundTrip(s: Text)
    requires forall i :: 0 <= i < |s| ==> s[i] != LF
    ensures SimpleUnescape(EscapeEach(s)) == s
  {
    if s != [] {
      var e := EscapeEach(s);
      assert e[2..] == EscapeEach(s[1..]);
      EscapeEachRoundTrip(s[1..]);
    }
  }

  /** The newline sequences a backslash can escape. */
  predicate IsNewline(nl: Text)
  {
    nl == [LF] || nl == [CR, LF] || nl == [CR] || nl == [FF]
  }

  /** A backslash-newline (a line continuation) disappears, and nothing else
      around it changes. */
  lemma {:induction false} LineContinuationRemoved(a: Text, nl: Text, b: Text)
    requires NoBackslash(a) && IsNewline(nl)
    requires nl == [CR] ==> b == [] || b[0] != LF
    ensures NewlineUnescape(a + [BACKSLASH] + nl + b) == a + NewlineUnescape(b)
  {
    if a == [] {
      assert a + [BACKSLASH] + nl + b == [BACKSLASH] + nl + b;
      ContinuationAtHead(nl, b);
    } else {
      var tail := a[1..] + [BACKSLASH] + nl + b;
      assert a + [BACKSLASH] + nl + b == [a[0]] + tail;
      NewlinePlain(a[0], tail);
      LineContinuationRemoved(a[1..], nl, b);
      assert [a[0]] + (a[1..] + NewlineUnescape(b)) == a + NewlineUnescape(b);
    }
  }

  /** A line continuation at the start is deleted. */
  lemma {:induction false} ContinuationAtHead(nl: Text, b: Text)
    requires IsNewline(nl)
    requires nl == [CR] ==> b == [] || b[0] != LF
    ensures NewlineUnescape([BACKSLASH] + nl + b) == NewlineUnescape(b)
  {
    var s := [BACKSLASH] + nl + b;
    assert s[|nl| + 1..] == b;
  }

  /** A character other than a backslash is kept as it is. */
  lemma {:induction false} NewlinePlain(c: CodePoint, rest: Text)
    requires c != BACKSLASH
    ensures NewlineUnescape([c] + rest) == [c] + NewlineUnescape(rest)
  {
    assert ([c] + rest)[1..] == rest;
  }
}
