/** CSS 3 colour values: a single token read as a colour keyword or a
    `#rgb` / `#rrggbb` hash.

    A colour is four numbers in 0..1 in the source; here a channel is the
    integer `c` in 0..255 that the source divides by 255, and alpha is 0 or 1. */
module Color3 {
  import opened Chars
  import opened Results
  import opened TokenData
  import opened ColorKeywords

  datatype ColorValue =
    | Rgba(red: nat, green: nat, blue: nat, alpha: nat)
      /** The `'currentColor'` marker. */
    | CurrentColor

  // Keywords

  /** Where `name` was last given a colour in `entries`: with `dict.update`
      the last pair for a key wins. */
  function LastNamed(entries: seq<KeywordEntry>, name: Text): (r: Option<nat>)
    ensures r.Some? ==> r.value < |entries| && Lit(entries[r.value].name) == name
    ensures r.Some? ==> forall k :: r.value < k < |entries| ==> Lit(entries[k].name) != name
    ensures r.None? <==> forall k :: 0 <= k < |entries| ==> Lit(entries[k].name) != name
    decreases |entries|
  {
    if entries == [] then None
    else if Lit(entries[|entries| - 1].name) == name then Some(|entries| - 1)
    else
      var r := LastNamed(entries[..|entries| - 1], name);
      assert forall k :: 0 <= k < |entries| - 1 ==> entries[..|entries| - 1][k] == entries[k];
      r
  }

  /** `SPECIAL_COLOR_KEYWORDS`. */
  function SpecialKeyword(name: Text): Option<ColorValue>
  {
    if name == Lit("currentcolor") then Some(CurrentColor)
    else if name == Lit("transparent") then Some(Rgba(0, 0, 0, 0))
    else None
  }

  /** `COLOR_KEYWORDS.get(name)` when `entries` are the pairs added over the
      special keywords, each with alpha 1. */
  function KeywordColor(entries: seq<KeywordEntry>, name: Text): (r: Option<ColorValue>)
    ensures r.Some? && r.value.Rgba? ==> r.value.red <= 255 && r.value.green <= 255 && r.value.blue <= 255
    ensures r.Some? && r.value.Rgba? ==> r.value.alpha == 1 || (name == Lit("transparent") && r.value.alpha == 0)
    ensures r == Some(CurrentColor) ==> name == Lit("currentcolor")
  {
    match LastNamed(entries, name)
    case Some(i) =>
      var e := entries[i];
      Some(Rgba(e.red, e.green, e.blue, 1))
    case None => SpecialKeyword(name)
  }

  /** `COLOR_KEYWORDS.get(name)`. */
  function ColorKeyword(name: Text): Option<ColorValue>
  {
    KeywordColor(KeywordTable, name)
  }

  lemma {:induction false} LitInjective(a: string, b: string)
    requires Lit(a) == Lit(b)
    ensures a == b
  {
    assert |a| == |b|;
    forall i | 0 <= i < |a| ensures a[i] == b[i] {
      assert Lit(a)[i] == Lit(b)[i];
    }
  }

  /** No table pair names a special keyword. */
  lemma {:induction false} NotInTable(entries: seq<KeywordEntry>, name: string)
    requires name == "currentcolor" || name == "transparent"
    ensures LastNamed(entries, Lit(name)).None?
  {
    forall k | 0 <= k < |entries| ensures Lit(entries[k].name) != Lit(name) {
      if Lit(entries[k].name) == Lit(name) {
        LitInjective(entries[k].name, name);
      }
    }
  }

  /** `currentcolor` is the marker and `transparent` is transparent black:
      no table pair overrides them. */
  lemma {:induction false} SpecialKeywords()
    ensures ColorKeyword(Lit("currentcolor")) == Some(CurrentColor)
    ensures ColorKeyword(Lit("transparent")) == Some(Rgba(0, 0, 0, 0))
  {
    NotInTable(KeywordTable, "currentcolor");
    NotInTable(KeywordTable, "transparent");
  }

  /** The entry that gives `name` its colour: the last pair for it. */
  lemma {:induction false} KeywordFound(entries: seq<KeywordEntry>, name: Text, i: nat)
    requires i < |entries| && name == Lit(entries[i].name)
    ensures exists j :: i <= j < |entries| && entries[j].name == entries[i].name
                        && KeywordColor(entries, name) == Some(Rgba(entries[j].red, entries[j].green, entries[j].blue, 1))
  {
    var j := LastNamed(entries, name).value;
    LitInjective(entries[j].name, entries[i].name);
  }

  /** `KeywordColor` has no colour for a name that is neither special nor in the table. */
  lemma {:induction false} KeywordMissing(entries: seq<KeywordEntry>, name: Text)
    ensures KeywordColor(entries, name).None? <==>
              name != Lit("currentcolor") && name != Lit("transparent")
              && forall k :: 0 <= k < |entries| ==> Lit(entries[k].name) != name
  {
    if name == Lit("currentcolor") {
      NotInTable(entries, "currentcolor");
    } else if name == Lit("transparent") {
      NotInTable(entries, "transparent");
    }
  }

  // Hashes

  predicate AllHex(s: Text) { forall i :: 0 <= i < |s| ==> IsHexDigit(s[i]) }

  /** One of `HASH_REGEXPS`: `^#`, three groups of `width` hex digits, `$`;
      each group is repeated `multiplier` times before it is read. */
  datatype HashPattern = HashPattern(multiplier: nat, width: nat)

  const HashPatterns: seq<HashPattern> := [HashPattern(2, 1), HashPattern(1, 2)]

  /** The code points of `v` from `a` up to `b` are hex digits. */
  predicate HexBetween(v: Text, a: nat, b: nat)
    requires a <= b <= |v|
  {
    forall i :: a <= i < b ==> IsHexDigit(v[i])
  }

  lemma {:induction false} HexSlice(v: Text, a: nat, b: nat)
    requires a <= b <= |v| && HexBetween(v, a, b)
    ensures AllHex(v[a..b])
  {
    assert forall i :: 0 <= i < b - a ==> v[a..b][i] == v[a + i];
  }

  /** The three groups of a subject that starts with `#` and enough hex digits. */
  function Groups(v: Text, w: nat): (gs: seq<Text>)
    requires |v| >= 1 + 3 * w && HexBetween(v, 1, 1 + 3 * w)
    ensures |gs| == 3 && forall g :: 0 <= g < 3 ==> |gs[g]| == w && AllHex(gs[g])
  {
    HexSlice(v, 1, 1 + w);
    HexSlice(v, 1 + w, 1 + 2 * w);
    HexSlice(v, 1 + 2 * w, 1 + 3 * w);
    [v[1..1 + w], v[1 + w..1 + 2 * w], v[1 + 2 * w..1 + 3 * w]]
  }

  /** `regexp(value)`. Without MULTILINE, Python's `$` matches at the end of
      the subject and also just before a newline that ends it; `strict` drops
      that second case. */
  function MatchHash(p: HashPattern, v: Text, strict: bool): (r: Option<seq<Text>>)
    ensures r.Some? ==> |r.value| == 3 && forall g :: 0 <= g < 3 ==> |r.value[g]| == p.width && AllHex(r.value[g])
  {
    var n := 1 + 3 * p.width;
    if |v| >= n && v[0] == '#' as int && HexBetween(v, 1, n)
       && (|v| == n || (!strict && |v| == n + 1 && v[n] == LF))
    then Some(Groups(v, p.width))
    else None
  }

  /** `s * k`. */
  function Repeat(s: Text, k: nat): (r: Text)
    ensures AllHex(s) ==> AllHex(r)
  {
    if k == 0 then [] else s + Repeat(s, k - 1)
  }

  lemma {:induction false} RepeatSmall(s: Text)
    ensures Repeat(s, 1) == s && Repeat(s, 2) == s + s
  {
    assert Repeat(s, 1) == s + [];
  }

  lemma {:induction false} RepeatLength(s: Text, k: nat)
    ensures |Repeat(s, k)| == |s| * k
  {
    if k > 0 {
      RepeatLength(s, k - 1);
    }
  }

  lemma {:induction false} HexValueBound(s: Text)
    requires AllHex(s)
    ensures HexValue(s) < Pow16(|s|)
    decreases |s|
  {
    if s != [] {
      HexValueBound(s[..|s| - 1]);
      var d := HexDigitValue(s[|s| - 1]);
      assert HexValue(s) == HexValue(s[..|s| - 1]) * 16 + d;
      assert HexValue(s[..|s| - 1]) * 16 <= (Pow16(|s| - 1) - 1) * 16;
    }
  }

  /** `int(group * multiplier, 16)`, for the two patterns' two-digit channels. */
  function Channel(group: Text, multiplier: nat): (c: nat)
    requires AllHex(group) && |group| * multiplier == 2
    ensures c <= 255
  {
    var digits := Repeat(group, multiplier);
    RepeatLength(group, multiplier);
    HexValueBound(digits);
    HexValue(digits)
  }

  /** The `for multiplier, regexp in HASH_REGEXPS` loop: the first pattern that
      matches gives the colour, with alpha 1. */
  function HashColor(v: Text, patterns: seq<HashPattern>, strict: bool): (r: Option<ColorValue>)
    requires forall i :: 0 <= i < |patterns| ==> patterns[i].multiplier * patterns[i].width == 2
    ensures r.Some? ==> r.value.Rgba? && r.value.alpha == 1
    ensures r.Some? ==> r.value.red <= 255 && r.value.green <= 255 && r.value.blue <= 255
    decreases |patterns|
  {
    if patterns == [] then None
    else
      var p := patterns[0];
      match MatchHash(p, v, strict)
      case Some(gs) => Some(Rgba(Channel(gs[0], p.multiplier), Channel(gs[1], p.multiplier), Channel(gs[2], p.multiplier), 1))
      case None => HashColor(v, patterns[1..], strict)
  }

  /** The hash branch as written: `#abc` followed by a newline is a colour. */
  function HexColorAsWritten(v: Text): Option<ColorValue>
  {
    HashColor(v, HashPatterns, false)
  }

  /** The hash branch with `$` read as the end of the value. */
  function HexColor(v: Text): Option<ColorValue>
  {
    HashColor(v, HashPatterns, true)
  }

  /** The colour a hash value names, read digit by digit: `#` and three or
      six hex digits; each digit of the short form counts for two. */
  function HexReference(v: Text): Option<ColorValue>
  {
    if |v| == 4 && v[0] == '#' as int && HexBetween(v, 1, 4) then
      Some(Rgba(17 * HexDigitValue(v[1]), 17 * HexDigitValue(v[2]), 17 * HexDigitValue(v[3]), 1))
    else if |v| == 7 && v[0] == '#' as int && HexBetween(v, 1, 7) then
      Some(Rgba(16 * HexDigitValue(v[1]) + HexDigitValue(v[2]),
                16 * HexDigitValue(v[3]) + HexDigitValue(v[4]),
                16 * HexDigitValue(v[5]) + HexDigitValue(v[6]), 1))
    else None
  }

  lemma {:induction false} HexPair(x: CodePoint, y: CodePoint)
    requires IsHexDigit(x) && IsHexDigit(y)
    ensures HexValue([x, y]) == 16 * HexDigitValue(x) + HexDigitValue(y)
  {
    assert [x, y][..1] == [x];
    assert [x][..0] == [];
    assert HexValue([x]) == HexDigitValue(x);
  }

  lemma {:induction false} ShortChannel(v: Text, i: nat)
    requires 1 <= i < |v| && IsHexDigit(v[i])
    ensures AllHex(v[i..i + 1]) && Channel(v[i..i + 1], 2) == 17 * HexDigitValue(v[i])
  {
    assert v[i..i + 1] == [v[i]];
    RepeatSmall([v[i]]);
    assert [v[i]] + [v[i]] == [v[i], v[i]];
    HexPair(v[i], v[i]);
  }

  lemma {:induction false} LongChannel(v: Text, i: nat)
    requires 1 <= i && i + 1 < |v| && IsHexDigit(v[i]) && IsHexDigit(v[i + 1])
    ensures AllHex(v[i..i + 2]) && Channel(v[i..i + 2], 1) == 16 * HexDigitValue(v[i]) + HexDigitValue(v[i + 1])
  {
    assert v[i..i + 2] == [v[i], v[i + 1]];
    RepeatSmall(v[i..i + 2]);
    HexPair(v[i], v[i + 1]);
  }

  lemma {:induction false} ShortPatternReference(v: Text)
    requires MatchHash(HashPatterns[0], v, true).Some?
    ensures HexColor(v) == HexReference(v)
  {
    assert MatchHash(HashPatterns[0], v, true).value == [v[1..2], v[2..3], v[3..4]];
    ShortChannel(v, 1);
    ShortChannel(v, 2);
    ShortChannel(v, 3);
  }

  /** The long pattern's colour, from its three two-digit groups. */
  lemma {:induction false} LongPatternColor(v: Text)
    requires MatchHash(HashPatterns[1], v, true).Some?
    ensures |v| == 7 && v[0] == '#' as int && HexBetween(v, 1, 7)
    ensures AllHex(v[1..3]) && AllHex(v[3..5]) && AllHex(v[5..7])
    ensures HashColor(v, HashPatterns[1..], true)
         == Some(Rgba(Channel(v[1..3], 1), Channel(v[3..5], 1), Channel(v[5..7], 1), 1))
  {
    assert HashPatterns[1..][0] == HashPattern(1, 2);
    assert MatchHash(HashPatterns[1], v, true).value == [v[1..3], v[3..5], v[5..7]];
  }

  /** The three channels of the long form, digit by digit. */
  lemma {:induction false} LongChannels(v: Text)
    requires |v| == 7 && HexBetween(v, 1, 7)
    ensures AllHex(v[1..3]) && AllHex(v[3..5]) && AllHex(v[5..7])
    ensures Rgba(Channel(v[1..3], 1), Channel(v[3..5], 1), Channel(v[5..7], 1), 1)
         == Rgba(16 * HexDigitValue(v[1]) + HexDigitValue(v[2]),
                 16 * HexDigitValue(v[3]) + HexDigitValue(v[4]),
                 16 * HexDigitValue(v[5]) + HexDigitValue(v[6]), 1)
  {
    assert IsHexDigit(v[1]) && IsHexDigit(v[2]) && IsHexDigit(v[3]);
    assert IsHexDigit(v[4]) && IsHexDigit(v[5]) && IsHexDigit(v[6]);
    LongChannel(v, 1);
    LongChannel(v, 3);
    LongChannel(v, 5);
  }

  /** A value the short pattern does not match is left to the long one. */
  lemma {:induction false} ShortPatternMisses(v: Text)
    requires MatchHash(HashPatterns[0], v, true).None?
    ensures HexColor(v) == HashColor(v, HashPatterns[1..], true)
  {
  }

  /** `#` and six hex digits, read digit by digit. */
  lemma {:induction false} LongReference(v: Text)
    requires |v| == 7 && v[0] == '#' as int && HexBetween(v, 1, 7)
    ensures HexReference(v)
         == Some(Rgba(16 * HexDigitValue(v[1]) + HexDigitValue(v[2]),
                      16 * HexDigitValue(v[3]) + HexDigitValue(v[4]),
                      16 * HexDigitValue(v[5]) + HexDigitValue(v[6]), 1))
  {
  }

  lemma {:induction false} LongPatternReference(v: Text)
    requires MatchHash(HashPatterns[0], v, true).None? && MatchHash(HashPatterns[1], v, true).Some?
    ensures HexColor(v) == HexReference(v)
  {
    ShortPatternMisses(v);
    LongPatternColor(v);
    LongChannels(v);
    LongReference(v);
  }

  lemma {:induction false} NoPatternReference(v: Text)
    requires MatchHash(HashPatterns[0], v, true).None? && MatchHash(HashPatterns[1], v, true).None?
    ensures HexColor(v) == HexReference(v) == None
  {
    assert HashPatterns[1..][1..] == [];
  }

  /** The two patterns read a hash value as the digit-by-digit reference does. */
  lemma {:induction false} HexColorIsReference(v: Text)
    ensures HexColor(v) == HexReference(v)
  {
    if MatchHash(HashPatterns[0], v, true).Some? {
      ShortPatternReference(v);
    } else if MatchHash(HashPatterns[1], v, true).Some? {
      LongPatternReference(v);
    } else {
      NoPatternReference(v);
    }
  }

  /** A hash value is a colour exactly when it is `#` and then three or six
      hex digits, in either case; every such colour is opaque. */
  lemma {:induction false} HexColorAccepts(v: Text)
    ensures HexColor(v).Some? <==>
              |v| >= 1 && v[0] == '#' as int && (|v| == 4 || |v| == 7) && AllHex(v[1..])
    ensures HexColor(v).Some? ==> HexColor(v).value.Rgba? && HexColor(v).value.alpha == 1
  {
    HexColorIsReference(v);
    if |v| >= 1 {
      assert AllHex(v[1..]) <==> HexBetween(v, 1, |v|) by {
        assert forall i :: 1 <= i < |v| ==> v[1..][i - 1] == v[i];
      }
    }
  }

  /** `#rrggbb` in lower-case hex. */
  function HexText(r: Level, g: Level, b: Level): (v: Text)
    ensures |v| == 7
  {
    ['#' as int] + HexDigits(r, 2) + HexDigits(g, 2) + HexDigits(b, 2)
  }

  lemma {:induction false} HexDigitsPair(n: Level)
    ensures HexDigits(n, 2) == [HexDigit(n / 16), HexDigit(n % 16)]
    ensures 16 * HexDigitValue(HexDigit(n / 16)) + HexDigitValue(HexDigit(n % 16)) == n
  {
    assert HexDigits(n / 16, 1) == [HexDigit(n / 16 % 16)];
  }

  lemma {:induction false} HexTextReference(r: Level, g: Level, b: Level)
    ensures HexReference(HexText(r, g, b)) == Some(Rgba(r, g, b, 1))
  {
    var v := HexText(r, g, b);
    HexDigitsPair(r);
    HexDigitsPair(g);
    HexDigitsPair(b);
    assert v == ['#' as int] + [HexDigit(r / 16), HexDigit(r % 16)] + [HexDigit(g / 16), HexDigit(g % 16)]
                + [HexDigit(b / 16), HexDigit(b % 16)];
  }

  /** Reading back the six-digit hash of a colour gives the colour. */
  lemma {:induction false} HexRoundTrip(r: Level, g: Level, b: Level)
    ensures HexColor(HexText(r, g, b)) == Some(Rgba(r, g, b, 1))
  {
    HexTextReference(r, g, b);
    HexColorIsReference(HexText(r, g, b));
  }

  lemma {:induction false} ShortReference(x: CodePoint, y: CodePoint, z: CodePoint)
    requires IsHexDigit(x) && IsHexDigit(y) && IsHexDigit(z)
    ensures HexReference(['#' as int, x, y, z]) == HexReference(['#' as int, x, x, y, y, z, z])
    ensures HexReference(['#' as int, x, y, z])
            == Some(Rgba(17 * HexDigitValue(x), 17 * HexDigitValue(y), 17 * HexDigitValue(z), 1))
  {
  }

  /** The three-digit form doubles each digit: `#12a` is `#1122aa`. */
  lemma {:induction false} ShortHexDoubles(x: CodePoint, y: CodePoint, z: CodePoint)
    requires IsHexDigit(x) && IsHexDigit(y) && IsHexDigit(z)
    ensures HexColor(['#' as int, x, y, z]) == HexColor(['#' as int, x, x, y, y, z, z])
    ensures HexColor(['#' as int, x, y, z])
            == Some(Rgba(17 * HexDigitValue(x), 17 * HexDigitValue(y), 17 * HexDigitValue(z), 1))
  {
    var short, long := ['#' as int, x, y, z], ['#' as int, x, x, y, y, z, z];
    HexColorIsReference(short);
    HexColorIsReference(long);
    ShortReference(x, y, z);
  }

  lemma {:induction false} LowerHexDigit(c: CodePoint)
    ensures IsHexDigit(LowerChar(c)) <==> IsHexDigit(c)
    ensures IsHexDigit(c) ==> HexDigitValue(LowerChar(c)) == HexDigitValue(c)
    ensures LowerChar(c) == '#' as int <==> c == '#' as int
  {
  }

  /** Hex digits are read in either case. */
  lemma {:induction false} HexCaseInsensitive(v: Text)
    ensures HexColor(Lower(v)) == HexColor(v)
  {
    HexColorIsReference(v);
    HexColorIsReference(Lower(v));
    LowerReference(v);
  }

  lemma {:induction false} LowerReference(v: Text)
    ensures HexReference(Lower(v)) == HexReference(v)
  {
    forall i | 0 <= i < |v|
      ensures IsHexDigit(Lower(v)[i]) <==> IsHexDigit(v[i])
      ensures IsHexDigit(v[i]) ==> HexDigitValue(Lower(v)[i]) == HexDigitValue(v[i])
      ensures Lower(v)[i] == '#' as int <==> v[i] == '#' as int
    {
      LowerHexDigit(v[i]);
    }
  }

  /** `$` as written: a pattern also matches a value that ends in a newline
      when it matches the value without that newline. */
  lemma {:induction false} MatchLoose(p: HashPattern, v: Text)
    ensures MatchHash(p, v, false) ==
              if MatchHash(p, v, true).Some? then MatchHash(p, v, true)
              else if |v| > 0 && v[|v| - 1] == LF then MatchHash(p, v[..|v| - 1], true)
              else None
  {
    var n, w := 1 + 3 * p.width, p.width;
    if |v| == n + 1 && v[n] == LF {
      var u := v[..n];
      assert HexBetween(u, 1, n) <==> HexBetween(v, 1, n);
      assert u[1..1 + w] == v[1..1 + w] && u[1 + w..1 + 2 * w] == v[1 + w..1 + 2 * w];
      assert u[1 + 2 * w..n] == v[1 + 2 * w..n];
    }
  }

  /** As written, a value that ends in a newline is read as the same value
      without it; otherwise the two readings agree. */
  lemma {:induction false} AsWrittenNewline(v: Text)
    ensures HexColorAsWritten(v) ==
              if |v| > 0 && v[|v| - 1] == LF && HexColor(v[..|v| - 1]).Some? then HexColor(v[..|v| - 1])
              else HexColor(v)
  {
    var p0, p1 := HashPatterns[0], HashPatterns[1];
    assert HashPatterns[1..][1..] == [];
    MatchLoose(p0, v);
    MatchLoose(p1, v);
  }

  lemma {:induction false} ShortAbc()
    ensures HexColor(Lit("#abc")) == Some(Rgba(0xaa, 0xbb, 0xcc, 1))
  {
    assert Lit("#abc") == ['#' as int, 'a' as int, 'b' as int, 'c' as int];
    ShortHexDoubles('a' as int, 'b' as int, 'c' as int);
  }

  /** `#abc` followed by a newline: the patterns as written accept it. */
  lemma {:induction false} TrailingNewlineAccepted()
    ensures HexColorAsWritten(Lit("#abc") + [LF]) == Some(Rgba(0xaa, 0xbb, 0xcc, 1))
    ensures HexColor(Lit("#abc") + [LF]).None?
  {
    var v := Lit("#abc") + [LF];
    assert v[..4] == Lit("#abc");
    assert HexColor(v[..4]) == Some(Rgba(0xaa, 0xbb, 0xcc, 1)) by {
      ShortAbc();
    }
    assert HexColor(v).None? by {
      HexColorAccepts(v);
      assert !IsHexDigit(v[4]);
    }
    AsWrittenNewline(v);
  }

  lemma {:induction false} AbcText()
    ensures Lit("#abc") == ['#' as int, 'a' as int, 'b' as int, 'c' as int]
    ensures Lit("#abc\\a") == Lit("#abc") + [BACKSLASH, 'a' as int]
  {
  }

  /** `\a` is the code point 10. */
  lemma {:induction false} EscapeTen()
    ensures UnicodeUnescape([BACKSLASH, 'a' as int]) == [LF]
  {
    var escape := [BACKSLASH, 'a' as int];
    assert escape[1..] == ['a' as int];
    assert HexRun(['a' as int], 6) == 1;
    assert HexValue(['a' as int]) == 10;
  }

  /** The value such a HASH token carries: the source text `#abc\a` decodes
      its escape `\a` to a newline. */
  lemma {:induction false} EscapedNewlineHash()
    ensures UnescapeName(Lit("#abc\\a")) == Lit("#abc") + [LF]
  {
    AbcText();
    UnescapePlainRun(Lit("#abc"), [BACKSLASH, 'a' as int]);
    EscapeTen();
    var decoded := Lit("#abc") + [LF];
    assert decoded == ['#' as int, 'a' as int, 'b' as int, 'c' as int, LF];
    UnescapeIdentity(decoded);
  }

  // Tokens

  /** `parse_color`: an IDENT is looked up case-insensitively, a HASH is read
      by the patterns with the strict end of input (see `HexColorAsWritten` for
      the code's `$`), and any other token is not a colour. */
  function ParseColor(t: Token): (r: Option<ColorValue>)
    ensures r.Some? ==> t.kind == Ident || t.kind == Hash
    ensures r.Some? && r.value.Rgba? ==>
              r.value.red <= 255 && r.value.green <= 255 && r.value.blue <= 255 && r.value.alpha <= 1
  {
    if t.kind == Ident then ColorKeyword(Lower(ValueText(t)))
    else if t.kind == Hash then HexColor(ValueText(t))
    else None
  }

  /** `parse_color_string`, given the token tree of the stripped string: only a
      single token can be a colour. */
  function ParseColorString(tokens: seq<Token>): (r: Option<ColorValue>)
    ensures r.Some? ==> |tokens| == 1 && (tokens[0].kind == Ident || tokens[0].kind == Hash)
  {
    if |tokens| == 1 then ParseColor(tokens[0]) else None
  }

  /** An IDENT whose value, lower-cased, is a table keyword has the colour of
      that keyword's last pair, with alpha 1. */
  lemma {:induction false} IdentKeyword(t: Token, i: nat)
    requires t.kind == Ident && i < |KeywordTable| && Lower(ValueText(t)) == Lit(KeywordTable[i].name)
    ensures exists j :: i <= j < |KeywordTable| && KeywordTable[j].name == KeywordTable[i].name
                        && ParseColor(t) == Some(Rgba(KeywordTable[j].red, KeywordTable[j].green, KeywordTable[j].blue, 1))
  {
    KeywordFound(KeywordTable, Lower(ValueText(t)), i);
  }

  /** An IDENT is not a colour exactly when its lower-cased value is no keyword. */
  lemma {:induction false} IdentUnknown(t: Token)
    requires t.kind == Ident
    ensures ParseColor(t).None? <==>
              Lower(ValueText(t)) != Lit("currentcolor") && Lower(ValueText(t)) != Lit("transparent")
              && forall k :: 0 <= k < |KeywordTable| ==> Lit(KeywordTable[k].name) != Lower(ValueText(t))
  {
    KeywordMissing(KeywordTable, Lower(ValueText(t)));
  }
}
