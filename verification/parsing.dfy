/** Splitting a token list at separator tokens (`split_on_comma`), with the
    generic notion of "the pieces between separators" that the declaration-list
    parser reuses for `;`. */
module Parsing {
  import opened Chars
  import opened TokenData

  /** The pieces of `xs` between the elements `isSep` picks out, separators
      dropped, empty pieces kept: always one more piece than separators. */
  function Pieces<T>(xs: seq<T>, isSep: T -> bool): (ps: seq<seq<T>>)
    ensures |ps| >= 1
    decreases |xs|
  {
    if xs == [] then [[]]
    else
      var init := Pieces(xs[..|xs| - 1], isSep);
      var x := xs[|xs| - 1];
      if isSep(x) then init + [[]] else init[..|init| - 1] + [init[|init| - 1] + [x]]
  }

  /** The separators of `xs`, in order. */
  function Separators<T>(xs: seq<T>, isSep: T -> bool): seq<T>
    decreases |xs|
  {
    if xs == [] then []
    else
      var init := Separators(xs[..|xs| - 1], isSep);
      if isSep(xs[|xs| - 1]) then init + [xs[|xs| - 1]] else init
  }

  /** The pieces put back together with the separators between them. */
  function Interleave<T>(ps: seq<seq<T>>, seps: seq<T>): seq<T>
    requires |ps| == |seps| + 1
    decreases |seps|
  {
    if seps == [] then ps[0]
    else Interleave(ps[..|ps| - 1], seps[..|seps| - 1]) + [seps[|seps| - 1]] + ps[|ps| - 1]
  }

  lemma {:induction false} PiecesCount<T>(xs: seq<T>, isSep: T -> bool)
    ensures |Pieces(xs, isSep)| == |Separators(xs, isSep)| + 1
    decreases |xs|
  {
    if xs != [] {
      PiecesCount(xs[..|xs| - 1], isSep);
    }
  }

  /** Re-joining the pieces with the separators between them gives back the input. */
  lemma {:induction false} PiecesRejoin<T>(xs: seq<T>, isSep: T -> bool)
    ensures |Pieces(xs, isSep)| == |Separators(xs, isSep)| + 1
    ensures Interleave(Pieces(xs, isSep), Separators(xs, isSep)) == xs
    decreases |xs|
  {
    PiecesCount(xs, isSep);
    if xs != [] {
      var init, x := xs[..|xs| - 1], xs[|xs| - 1];
      PiecesRejoin(init, isSep);
      var ps, seps := Pieces(init, isSep), Separators(init, isSep);
      if isSep(x) {
        InterleaveAddSeparator(ps, seps, x);
      } else {
        InterleaveExtendLast(ps, seps, x);
      }
      assert xs == init + [x];
    }
  }

  /** A separator and an empty piece added at the end add that separator. */
  lemma {:induction false} InterleaveAddSeparator<T>(ps: seq<seq<T>>, seps: seq<T>, s: T)
    requires |ps| == |seps| + 1
    ensures Interleave(ps + [[]], seps + [s]) == Interleave(ps, seps) + [s]
  {
    var ps', seps' := ps + [[]], seps + [s];
    assert ps'[..|ps'| - 1] == ps && seps'[..|seps'| - 1] == seps;
    assert Interleave(ps, seps) + [s] + [] == Interleave(ps, seps) + [s];
  }

  /** An element added to the last piece is added at the end. */
  lemma {:induction false} InterleaveExtendLast<T>(ps: seq<seq<T>>, seps: seq<T>, x: T)
    requires |ps| == |seps| + 1
    ensures Interleave(ps[..|ps| - 1] + [ps[|ps| - 1] + [x]], seps) == Interleave(ps, seps) + [x]
  {
    var last := |ps| - 1;
    var ps' := ps[..last] + [ps[last] + [x]];
    if seps != [] {
      var seps0 := seps[..|seps| - 1];
      assert ps'[..last] == ps[..last];
      var front := Interleave(ps[..last], seps0) + [seps[|seps| - 1]];
      assert front + (ps[last] + [x]) == front + ps[last] + [x];
    }
  }

  predicate NoSeparatorIn<T>(ps: seq<seq<T>>, isSep: T -> bool)
  {
    forall i, j :: 0 <= i < |ps| && 0 <= j < |ps[i]| ==> !isSep(ps[i][j])
  }

  /** No piece holds a separator. */
  lemma {:induction false} PiecesHaveNoSeparator<T>(xs: seq<T>, isSep: T -> bool)
    ensures NoSeparatorIn(Pieces(xs, isSep), isSep)
    decreases |xs|
  {
    if xs != [] {
      var init, x := Pieces(xs[..|xs| - 1], isSep), xs[|xs| - 1];
      PiecesHaveNoSeparator(xs[..|xs| - 1], isSep);
      var ps := Pieces(xs, isSep);
      forall i, j | 0 <= i < |ps| && 0 <= j < |ps[i]| ensures !isSep(ps[i][j]) {
        if isSep(x) {
          assert ps == init + [[]];
          assert i < |init| && ps[i] == init[i];
        } else if i < |init| - 1 {
          assert ps[i] == init[i];
        } else if j < |init[i]| {
          assert ps[i] == init[i] + [x];
          assert ps[i][j] == init[i][j];
        } else {
          assert ps[i] == init[i] + [x];
          assert ps[i][j] == x;
        }
      }
    }
  }

  /** A `,` DELIM token. */
  predicate IsComma(t: Token)
  {
    t.Atom? && t.kind == Delim && t.value == TextValue(Lit(","))
  }

  /** `split_on_comma`: only the list's own elements are looked at, so commas
      inside a container stay in it. */
  method SplitOnComma(tokens: seq<Token>) returns (parts: seq<seq<Token>>)
    ensures parts == Pieces(tokens, IsComma)
    ensures |parts| == |Separators(tokens, IsComma)| + 1
    ensures Interleave(parts, Separators(tokens, IsComma)) == tokens
    ensures forall i, j :: 0 <= i < |parts| && 0 <= j < |parts[i]| ==> !IsComma(parts[i][j])
  {
    parts := [];
    var thisPart := [];
    for i := 0 to |tokens|
      invariant parts + [thisPart] == Pieces(tokens[..i], IsComma)
    {
      assert tokens[..i + 1][..i] == tokens[..i];
      if IsComma(tokens[i]) {
        parts := parts + [thisPart];
        thisPart := [];
      } else {
        thisPart := thisPart + [tokens[i]];
      }
    }
    parts := parts + [thisPart];
    assert tokens[..|tokens|] == tokens;
    PiecesRejoin(tokens, IsComma);
    PiecesHaveNoSeparator(tokens, IsComma);
  }
}
