/** The colour keyword tables of CSS 3 colour: the HTML 4 keywords, then the
    SVG ones, each with its `(r, g, b)` channels in 0..255. */
module ColorKeywords {
  type Level = c: int | 0 <= c <= 255

  /** One `(keyword, (r, g, b))` pair of the keyword tables. */
  datatype NamedColor = NamedColor(name: string, red: Level, green: Level, blue: Level)

  /** A table keyword is not one of the two special keywords: none has twelve
      letters and starts with `c`, as `currentcolor` does, or eleven letters and
      starts with `t`, as `transparent` does. */
  predicate IsTableKeyword(s: string)
  {
    && |s| > 0
    && (|s| == 12 ==> s[0] != 'c')
    && (|s| == 11 ==> s[0] != 't')
  }

  type KeywordEntry = e: NamedColor | IsTableKeyword(e.name) witness NamedColor("black", 0, 0, 0)

  // The tables are written in runs of at most eight pairs, so that each run's
  // entries are checked against `KeywordEntry` on their own.

  const Basic1: seq<KeywordEntry> := [
    NamedColor("black", 0, 0, 0),
    NamedColor("silver", 192, 192, 192),
    NamedColor("gray", 128, 128, 128),
    NamedColor("white", 255, 255, 255),
    NamedColor("maroon", 128, 0, 0),
    NamedColor("red", 255, 0, 0),
    NamedColor("purple", 128, 0, 128),
    NamedColor("fuchsia", 255, 0, 255)
  ]

  const Basic2: seq<KeywordEntry> := [
    NamedColor("green", 0, 128, 0),
    NamedColor("lime", 0, 255, 0),
    NamedColor("olive", 128, 128, 0),
    NamedColor("yellow", 255, 255, 0),
    NamedColor("navy", 0, 0, 128),
    NamedColor("blue", 0, 0, 255),
    NamedColor("teal", 0, 128, 128),
    NamedColor("aqua", 0, 255, 255)
  ]

  const Extended1: seq<KeywordEntry> := [
    NamedColor("aliceblue", 240, 248, 255),
    NamedColor("antiquewhite", 250, 235, 215),
    NamedColor("aqua", 0, 255, 255),
    NamedColor("aquamarine", 127, 255, 212),
    NamedColor("azure", 240, 255, 255),
    NamedColor("beige", 245, 245, 220),
    NamedColor("bisque", 255, 228, 196)
  ]

  const Extended2: seq<KeywordEntry> := [
    NamedColor("black", 0, 0, 0),
    NamedColor("blanchedalmond", 255, 235, 205),
    NamedColor("blue", 0, 0, 255),
    NamedColor("blueviolet", 138, 43, 226),
    NamedColor("brown", 165, 42, 42),
    NamedColor("burlywood", 222, 184, 135),
    NamedColor("cadetblue", 95, 158, 160)
  ]

  const Extended3: seq<KeywordEntry> := [
    NamedColor("chartreuse", 127, 255, 0),
    NamedColor("chocolate", 210, 105, 30),
    NamedColor("coral", 255, 127, 80),
    NamedColor("cornflowerblue", 100, 149, 237),
    NamedColor("cornsilk", 255, 248, 220),
    NamedColor("crimson", 220, 20, 60),
    NamedColor("cyan", 0, 255, 255)
  ]

  const Extended4: seq<KeywordEntry> := [
    NamedColor("darkblue", 0, 0, 139),
    NamedColor("darkcyan", 0, 139, 139),
    NamedColor("darkgoldenrod", 184, 134, 11),
    NamedColor("darkgray", 169, 169, 169),
    NamedColor("darkgreen", 0, 100, 0),
    NamedColor("darkgrey", 169, 169, 169),
    NamedColor("darkkhaki", 189, 183, 107)
  ]

  const Extended5: seq<KeywordEntry> := [
    NamedColor("darkmagenta", 139, 0, 139),
    NamedColor("darkolivegreen", 85, 107, 47),
    NamedColor("darkorange", 255, 140, 0),
    NamedColor("darkorchid", 153, 50, 204),
    NamedColor("darkred", 139, 0, 0),
    NamedColor("darksalmon", 233, 150, 122),
    NamedColor("darkseagreen", 143, 188, 143)
  ]

  const Extended6: seq<KeywordEntry> := [
    NamedColor("darkslateblue", 72, 61, 139),
    NamedColor("darkslategray", 47, 79, 79),
    NamedColor("darkslategrey", 47, 79, 79),
    NamedColor("darkturquoise", 0, 206, 209),
    NamedColor("darkviolet", 148, 0, 211),
    NamedColor("deeppink", 255, 20, 147),
    NamedColor("deepskyblue", 0, 191, 255)
  ]

  const Extended7: seq<KeywordEntry> := [
    NamedColor("dimgray", 105, 105, 105),
    NamedColor("dimgrey", 105, 105, 105),
    NamedColor("dodgerblue", 30, 144, 255),
    NamedColor("firebrick", 178, 34, 34),
    NamedColor("floralwhite", 255, 250, 240),
    NamedColor("forestgreen", 34, 139, 34),
    NamedColor("fuchsia", 255, 0, 255)
  ]

  const Extended8: seq<KeywordEntry> := [
    NamedColor("gainsboro", 220, 220, 220),
    NamedColor("ghostwhite", 248, 248, 255),
    NamedColor("gold", 255, 215, 0),
    NamedColor("goldenrod", 218, 165, 32),
    NamedColor("gray", 128, 128, 128),
    NamedColor("green", 0, 128, 0),
    NamedColor("greenyellow", 173, 255, 47)
  ]

  const Extended9: seq<KeywordEntry> := [
    NamedColor("grey", 128, 128, 128),
    NamedColor("honeydew", 240, 255, 240),
    NamedColor("hotpink", 255, 105, 180),
    NamedColor("indianred", 205, 92, 92),
    NamedColor("indigo", 75, 0, 130),
    NamedColor("ivory", 255, 255, 240),
    NamedColor("khaki", 240, 230, 140)
  ]

  const Extended10: seq<KeywordEntry> := [
    NamedColor("lavender", 230, 230, 250),
    NamedColor("lavenderblush", 255, 240, 245),
    NamedColor("lawngreen", 124, 252, 0),
    NamedColor("lemonchiffon", 255, 250, 205),
    NamedColor("lightblue", 173, 216, 230),
    NamedColor("lightcoral", 240, 128, 128),
    NamedColor("lightcyan", 224, 255, 255)
  ]

  const Extended11: seq<KeywordEntry> := [
    NamedColor("lightgoldenrodyellow", 250, 250, 210),
    NamedColor("lightgray", 211, 211, 211),
    NamedColor("lightgreen", 144, 238, 144),
    NamedColor("lightgrey", 211, 211, 211),
    NamedColor("lightpink", 255, 182, 193),
    NamedColor("lightsalmon", 255, 160, 122),
    NamedColor("lightseagreen", 32, 178, 170)
  ]

  const Extended12: seq<KeywordEntry> := [
    NamedColor("lightskyblue", 135, 206, 250),
    NamedColor("lightslategray", 119, 136, 153),
    NamedColor("lightslategrey", 119, 136, 153),
    NamedColor("lightsteelblue", 176, 196, 222),
    NamedColor("lightyellow", 255, 255, 224),
    NamedColor("lime", 0, 255, 0),
    NamedColor("limegreen", 50, 205, 50)
  ]

  const Extended13: seq<KeywordEntry> := [
    NamedColor("linen", 250, 240, 230),
    NamedColor("magenta", 255, 0, 255),
    NamedColor("maroon", 128, 0, 0),
    NamedColor("mediumaquamarine", 102, 205, 170),
    NamedColor("mediumblue", 0, 0, 205),
    NamedColor("mediumorchid", 186, 85, 211),
    NamedColor("mediumpurple", 147, 112, 219)
  ]

  const Extended14: seq<KeywordEntry> := [
    NamedColor("mediumseagreen", 60, 179, 113),
    NamedColor("mediumslateblue", 123, 104, 238),
    NamedColor("mediumspringgreen", 0, 250, 154),
    NamedColor("mediumturquoise", 72, 209, 204),
    NamedColor("mediumvioletred", 199, 21, 133),
    NamedColor("midnightblue", 25, 25, 112),
    NamedColor("mintcream", 245, 255, 250)
  ]

  const Extended15: seq<KeywordEntry> := [
    NamedColor("mistyrose", 255, 228, 225),
    NamedColor("moccasin", 255, 228, 181),
    NamedColor("navajowhite", 255, 222, 173),
    NamedColor("navy", 0, 0, 128),
    NamedColor("oldlace", 253, 245, 230),
    NamedColor("olive", 128, 128, 0),
    NamedColor("olivedrab", 107, 142, 35)
  ]

  const Extended16: seq<KeywordEntry> := [
    NamedColor("orange", 255, 165, 0),
    NamedColor("orangered", 255, 69, 0),
    NamedColor("orchid", 218, 112, 214),
    NamedColor("palegoldenrod", 238, 232, 170),
    NamedColor("palegreen", 152, 251, 152),
    NamedColor("paleturquoise", 175, 238, 238),
    NamedColor("palevioletred", 219, 112, 147)
  ]

  const Extended17: seq<KeywordEntry> := [
    NamedColor("papayawhip", 255, 239, 213),
    NamedColor("peachpuff", 255, 218, 185),
    NamedColor("peru", 205, 133, 63),
    NamedColor("pink", 255, 192, 203),
    NamedColor("plum", 221, 160, 221),
    NamedColor("powderblue", 176, 224, 230),
    NamedColor("purple", 128, 0, 128)
  ]

  const Extended18: seq<KeywordEntry> := [
    NamedColor("red", 255, 0, 0),
    NamedColor("rosybrown", 188, 143, 143),
    NamedColor("royalblue", 65, 105, 225),
    NamedColor("saddlebrown", 139, 69, 19),
    NamedColor("salmon", 250, 128, 114),
    NamedColor("sandybrown", 244, 164, 96),
    NamedColor("seagreen", 46, 139, 87)
  ]

  const Extended19: seq<KeywordEntry> := [
    NamedColor("seashell", 255, 245, 238),
    NamedColor("sienna", 160, 82, 45),
    NamedColor("silver", 192, 192, 192),
    NamedColor("skyblue", 135, 206, 235),
    NamedColor("slateblue", 106, 90, 205),
    NamedColor("slategray", 112, 128, 144),
    NamedColor("slategrey", 112, 128, 144)
  ]

  const Extended20: seq<KeywordEntry> := [
    NamedColor("snow", 255, 250, 250),
    NamedColor("springgreen", 0, 255, 127),
    NamedColor("steelblue", 70, 130, 180),
    NamedColor("tan", 210, 180, 140),
    NamedColor("teal", 0, 128, 128),
    NamedColor("thistle", 216, 191, 216),
    NamedColor("tomato", 255, 99, 71)
  ]

  const Extended21: seq<KeywordEntry> := [
    NamedColor("turquoise", 64, 224, 208),
    NamedColor("violet", 238, 130, 238),
    NamedColor("wheat", 245, 222, 179),
    NamedColor("white", 255, 255, 255),
    NamedColor("whitesmoke", 245, 245, 245),
    NamedColor("yellow", 255, 255, 0),
    NamedColor("yellowgreen", 154, 205, 50)
  ]

  /** `BASIC_COLOR_KEYWORDS`: the sixteen HTML 4 colour keywords. */
  const BasicColorKeywords: seq<KeywordEntry> := Basic1 + Basic2

  /** `EXTENDED_COLOR_KEYWORDS`: the SVG colour keywords, some of which repeat a
      basic one. */
  const ExtendedColorKeywords: seq<KeywordEntry> :=
    Extended1 + Extended2 + Extended3 + Extended4 + Extended5 + Extended6 + Extended7 +
    Extended8 + Extended9 + Extended10 + Extended11 + Extended12 + Extended13 +
    Extended14 + Extended15 + Extended16 + Extended17 + Extended18 + Extended19 +
    Extended20 + Extended21

  /** The pairs `COLOR_KEYWORDS.update` receives, in order. */
  const KeywordTable: seq<KeywordEntry> := BasicColorKeywords + ExtendedColorKeywords
}
