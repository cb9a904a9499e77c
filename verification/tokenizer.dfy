/** The older longest-match tokenizer: at each position every rule of the
    ordered token table is tried, and the longest match wins, the earliest rule
    among equally long ones.

    The compiled expressions are not modelled: a `Rule` carries, in place of
    `regexp.match(string, pos)`, a function of the text from `pos` on that gives
    the length of the match, if there is one. */
module Tokenizer {
  import opened Chars
  import opened Results
  import opened TokenData

  datatype Rule = Rule(name: Kind, matches: Text -> Option<nat>)

  /** A match never runs past the end of the text. */
  ghost predicate ValidRules(rules: seq<Rule>)
  {
    forall i, rest: Text {:trigger rules[i].matches(rest)} ::
      0 <= i < |rules| && rules[i].matches(rest).Some? ==> rules[i].matches(rest).value <= |rest|
  }

  /** `len(match.group())`, or 0 when the rule does not match. */
  function MatchLength(rule: Rule, rest: Text): nat
  {
    match rule.matches(rest)
    case None => 0
    case Some(n) => n
  }

  /** The rule chosen at a position: its type and its length; none when no
      rule matches a non-empty prefix. */
  datatype Candidate = NoCandidate | Candidate(name: Kind, length: nat)

  /** The longest match, the earliest rule among equally long ones. */
  predicate IsLongestEarliest(rules: seq<Rule>, rest: Text, i: int)
  {
    && 0 <= i < |rules|
    && MatchLength(rules[i], rest) > 0
    && (forall j :: 0 <= j < |rules| ==> MatchLength(rules[j], rest) <= MatchLength(rules[i], rest))
    && (forall j :: 0 <= j < i ==> MatchLength(rules[j], rest) < MatchLength(rules[i], rest))
  }

  /** The reference choice, read from the end of the table: a rule beats the
      rules after it when it matches at least as much. */
  function Select(rules: seq<Rule>, rest: Text): (c: Candidate)
    ensures c.Candidate? ==> c.length > 0
  {
    if rules == [] then NoCandidate
    else
      var n := MatchLength(rules[0], rest);
      var later := Select(rules[1..], rest);
      if n > 0 && (later.NoCandidate? || n >= later.length) then Candidate(rules[0].name, n)
      else later
  }

  /** The reference choice is the longest match, the earliest rule among equally
      long ones; there is none exactly when no rule matches a non-empty prefix. */
  lemma {:induction false} SelectIsLongestEarliest(rules: seq<Rule>, rest: Text)
    ensures Select(rules, rest).NoCandidate? <==> forall j :: 0 <= j < |rules| ==> MatchLength(rules[j], rest) == 0
    ensures Select(rules, rest).Candidate? ==>
              exists i :: IsLongestEarliest(rules, rest, i)
                       && Select(rules, rest) == Candidate(rules[i].name, MatchLength(rules[i], rest))
  {
    if rules != [] {
      var n := MatchLength(rules[0], rest);
      var later := Select(rules[1..], rest);
      SelectIsLongestEarliest(rules[1..], rest);
      forall j | 1 <= j < |rules| ensures MatchLength(rules[j], rest) == MatchLength(rules[1..][j - 1], rest) {
        assert rules[j] == rules[1..][j - 1];
      }
      if n > 0 && (later.NoCandidate? || n >= later.length) {
        if later.Candidate? {
          var k :| IsLongestEarliest(rules[1..], rest, k)
                   && later == Candidate(rules[1..][k].name, MatchLength(rules[1..][k], rest));
        }
        assert IsLongestEarliest(rules, rest, 0);
      } else if later.Candidate? {
        var k :| IsLongestEarliest(rules[1..], rest, k)
                 && later == Candidate(rules[1..][k].name, MatchLength(rules[1..][k], rest));
        assert IsLongestEarliest(rules, rest, k + 1);
      }
    }
  }

  /** Only one rule is the longest-earliest one. */
  lemma {:induction false} LongestEarliestUnique(rules: seq<Rule>, rest: Text, i: int, k: int)
    requires IsLongestEarliest(rules, rest, i) && IsLongestEarliest(rules, rest, k)
    ensures i == k
  {
  }

  /** The inner `for` loop: try every rule, keep a match only when strictly longer. */
  method SelectCandidate(rules: seq<Rule>, rest: Text) returns (candidate: Candidate)
    ensures candidate == Select(rules, rest)
  {
    var candidateLen := 0;
    var candidateName := Delim;
    ghost var winner := 0;
    for k := 0 to |rules|
      invariant candidateLen == 0 <==> forall j :: 0 <= j < k ==> MatchLength(rules[j], rest) == 0
      invariant candidateLen > 0 ==> winner < k && candidateName == rules[winner].name
                                     && candidateLen == MatchLength(rules[winner], rest)
      invariant forall j :: 0 <= j < k ==> MatchLength(rules[j], rest) <= candidateLen
      invariant candidateLen > 0 ==> forall j :: 0 <= j < winner ==> MatchLength(rules[j], rest) < candidateLen
    {
      var found := rules[k].matches(rest);
      if found.None? {
        continue;
      }
      var thisLen := found.value;
      if thisLen > candidateLen {
        candidateName := rules[k].name;
        candidateLen := thisLen;
        winner := k;
      }
    }
    SelectIsLongestEarliest(rules, rest);
    if candidateLen == 0 {
      candidate := NoCandidate;
    } else {
      candidate := Candidate(candidateName, candidateLen);
      assert IsLongestEarliest(rules, rest, winner);
      var i :| IsLongestEarliest(rules, rest, i)
               && Select(rules, rest) == Candidate(rules[i].name, MatchLength(rules[i], rest));
      LongestEarliestUnique(rules, rest, winner, i);
    }
  }

  /** The chosen match fits in the remaining text. */
  lemma {:induction false} SelectedFits(rules: seq<Rule>, rest: Text)
    requires ValidRules(rules) && Select(rules, rest).Candidate?
    ensures Select(rules, rest).length <= |rest|
  {
    SelectIsLongestEarliest(rules, rest);
    var i :| IsLongestEarliest(rules, rest, i)
             && Select(rules, rest) == Candidate(rules[i].name, MatchLength(rules[i], rest));
    assert rules[i].matches(rest).Some?;
  }

  /** A `(type, value)` pair. */
  datatype Lexeme = Lexeme(kind: Kind, text: Text)

  predicate IsCommentKind(k: Kind) { k == Comment || k == BadComment }

  /** The pairs one step of the loop yields. */
  function Yielded(rules: seq<Rule>, rest: Text, ignoreComments: bool): (r: (seq<Lexeme>, nat))
    requires ValidRules(rules) && |rest| > 0
    ensures 1 <= r.1 <= |rest|
  {
    match Select(rules, rest)
    case NoCandidate => ([Lexeme(Delim, [rest[0]])], 1)
    case Candidate(name, n) =>
      SelectedFits(rules, rest);
      (if ignoreComments && IsCommentKind(name) then [] else [Lexeme(name, rest[..n])], n)
  }

  /** The pairs yielded for `rest`: the loop as a recursive function. */
  function Lexemes(rules: seq<Rule>, rest: Text, ignoreComments: bool): seq<Lexeme>
    requires ValidRules(rules)
    decreases |rest|
  {
    if rest == [] then []
    else
      var (out, n) := Yielded(rules, rest, ignoreComments);
      out + Lexemes(rules, rest[n..], ignoreComments)
  }

  function ConcatText(ls: seq<Lexeme>): Text
  {
    if ls == [] then [] else ls[0].text + ConcatText(ls[1..])
  }

  lemma {:induction false} ConcatTextAppend(a: seq<Lexeme>, b: seq<Lexeme>)
    ensures ConcatText(a + b) == ConcatText(a) + ConcatText(b)
  {
    if a == [] {
      assert a + b == b;
    } else {
      assert (a + b)[1..] == a[1..] + b;
      ConcatTextAppend(a[1..], b);
    }
  }

  lemma {:induction false} LexemesStep(rules: seq<Rule>, rest: Text, ignoreComments: bool,
                    before: seq<Lexeme>, after: seq<Lexeme>, next: Text)
    requires ValidRules(rules) && |rest| > 0
    requires after == before + Yielded(rules, rest, ignoreComments).0
    requires next == rest[Yielded(rules, rest, ignoreComments).1..]
    ensures after + Lexemes(rules, next, ignoreComments) == before + Lexemes(rules, rest, ignoreComments)
  {
  }

  /** `tokenize`, collected into a list. */
  method Tokenize(source: Text, ignoreComments: bool, rules: seq<Rule>) returns (tokens: seq<Lexeme>)
    requires ValidRules(rules)
    ensures tokens == Lexemes(rules, source, ignoreComments)
    ensures !ignoreComments ==> ConcatText(tokens) == source
  {
    tokens := [];
    var pos := 0;
    while pos < |source|
      invariant pos <= |source|
      invariant tokens + Lexemes(rules, source[pos..], ignoreComments) == Lexemes(rules, source, ignoreComments)
      decreases |source| - pos
    {
      ghost var rest, before := source[pos..], tokens;
      var candidate := SelectCandidate(rules, source[pos..]);
      var length;
      if candidate.NoCandidate? {
        tokens := tokens + [Lexeme(Delim, [source[pos]])];
        length := 1;
      } else {
        SelectedFits(rules, rest);
        length := candidate.length;
        assert rest[..length] == source[pos..pos + length];
        if !(ignoreComments && IsCommentKind(candidate.name)) {
          tokens := tokens + [Lexeme(candidate.name, source[pos..pos + length])];
        }
      }
      pos := pos + length;
      LexemesStep(rules, rest, ignoreComments, before, tokens, source[pos..]);
    }
    if !ignoreComments {
      LexemesRoundTrip(rules, source);
    }
  }

  /** `pos` moves by exactly the text yielded, so with comments kept the values
      put together are the input. */
  lemma {:induction false} LexemesRoundTrip(rules: seq<Rule>, rest: Text)
    requires ValidRules(rules)
    ensures ConcatText(Lexemes(rules, rest, false)) == rest
    decreases |rest|
  {
    if rest != [] {
      var (out, n) := Yielded(rules, rest, false);
      assert ConcatText(out) == rest[..n];
      LexemesRoundTrip(rules, rest[n..]);
      ConcatTextAppend(out, Lexemes(rules, rest[n..], false));
      assert rest == rest[..n] + rest[n..];
    }
  }

  function RemoveComments(ls: seq<Lexeme>): seq<Lexeme>
  {
    if ls == [] then []
    else (if IsCommentKind(ls[0].kind) then [] else [ls[0]]) + RemoveComments(ls[1..])
  }

  /** COMMENT and BAD_COMMENT are dropped when ignored and everything else is
      unchanged: they are still consumed. */
  lemma {:induction false} IgnoringComments(rules: seq<Rule>, rest: Text)
    requires ValidRules(rules)
    ensures Lexemes(rules, rest, true) == RemoveComments(Lexemes(rules, rest, false))
    decreases |rest|
  {
    if rest != [] {
      var (out, n) := Yielded(rules, rest, false);
      IgnoringComments(rules, rest[n..]);
      var kept := Lexemes(rules, rest, false);
      assert kept[1..] == Lexemes(rules, rest[n..], false);
    }
  }
}
