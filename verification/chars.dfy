/** Characters and text as the CSS source sees them: Unicode code points.
    A code point, not a Dafny `char`, because an escape such as `\D800`
    decodes to a lone surrogate, which a `char` cannot hold. */
module Chars {

  type CodePoint = c: int | 0 <= c <= 0x10FFFF

  type Text = seq<CodePoint>

  const BACKSLASH: CodePoint := 0x5C
  const LF: CodePoint := 0x0A
  const CR: CodePoint := 0x0D
  const FF: CodePoint := 0x0C
  const TAB: CodePoint := 0x09
  const SPACE: CodePoint := 0x20
  const REPLACEMENT: CodePoint := 0xFFFD

  /** The code points of a Dafny string literal. */
  function Lit(s: string): (t: Text)
    ensures |t| == |s|
    ensures forall i :: 0 <= i < |s| ==> t[i] == s[i] as int
  {
    seq(|s|, i requires 0 <= i < |s| => s[i] as int)
  }

  predicate IsDigit(c: CodePoint) { '0' as int <= c <= '9' as int }

  /** `[0-9a-f]` matched case-insensitively. */
  predicate IsHexDigit(c: CodePoint)
  {
    IsDigit(c) || 'a' as int <= c <= 'f' as int || 'A' as int <= c <= 'F' as int
  }

  function HexDigitValue(c: CodePoint): (v: nat)
    requires IsHexDigit(c)
    ensures v < 16
  {
    if IsDigit(c) then c - '0' as int
    else if 'a' as int <= c <= 'f' as int then c - 'a' as int + 10
    else c - 'A' as int + 10
  }

  /** The digit that `HexDigitValue` reads back as `v`. */
  function HexDigit(v: nat): (c: CodePoint)
    requires v < 16
    ensures IsHexDigit(c) && HexDigitValue(c) == v
  {
    if v < 10 then '0' as int + v else 'a' as int + (v - 10)
  }

  /** `int(s, 16)` for a non-empty run of hex digits, most significant first. */
  function HexValue(s: Text): (v: nat)
    requires forall i :: 0 <= i < |s| ==> IsHexDigit(s[i])
  {
    if s == [] then 0 else HexValue(s[..|s| - 1]) * 16 + HexDigitValue(s[|s| - 1])
  }

  /** A newline for the `nl` macro: `\n`, `\r` or `\f` (`\r\n` counts once). */
  predicate IsNewlineChar(c: CodePoint) { c == LF || c == CR || c == FF }

  /** `[ \t\r\n\f]` */
  predicate IsWhitespace(c: CodePoint) { c == SPACE || c == TAB || IsNewlineChar(c) }

  predicate IsAsciiUpper(c: CodePoint) { 'A' as int <= c <= 'Z' as int }

  function LowerChar(c: CodePoint): (d: CodePoint)
    ensures !IsAsciiUpper(d)
    ensures !IsAsciiUpper(c) ==> d == c
  {
    if IsAsciiUpper(c) then c + 32 else c
  }

  /** `str.lower()`, restricted to ASCII letters. */
  function Lower(s: Text): (t: Text)
    ensures |t| == |s|
    ensures forall i :: 0 <= i < |s| ==> t[i] == LowerChar(s[i])
  {
    if s == [] then [] else [LowerChar(s[0])] + Lower(s[1..])
  }

  predicate NoUpper(s: Text) { forall i :: 0 <= i < |s| ==> !IsAsciiUpper(s[i]) }

  /** Python's `s[1:-1]`: total, empty when fewer than two characters. */
  function StripEnds(s: Text): (t: Text)
    ensures |s| >= 2 ==> t == s[1..|s| - 1]
  {
    if |s| >= 2 then s[1..|s| - 1] else []
  }

  /** Python's `s[1:]`. */
  function DropFirst(s: Text): Text
  {
    if |s| >= 1 then s[1..] else []
  }

  /** The keyword `@charset` is already lower-case. */
  lemma {:induction false} CharsetLower()
    ensures Lower(Lit("@charset")) == Lit("@charset")
  {
    var keyword := Lit("@charset");
    assert NoUpper(keyword);
  }
}
