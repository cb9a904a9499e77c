/** List operations the parsers share: skipping white space at either end of a
    token list, and finding the first token of a kind in the unread part of the
    iterator. Stated over any element type, so the proofs do not depend on
    what a token holds. */
module Lists {
  import opened Results

  predicate All<T>(xs: seq<T>, p: T -> bool)
  {
    forall i :: 0 <= i < |xs| ==> p(xs[i])
  }

  lemma {:induction false} AllSlice<T>(xs: seq<T>, a: nat, b: nat, p: T -> bool)
    requires All(xs, p) && a <= b <= |xs|
    ensures All(xs[a..b], p)
  {
    assert forall i :: 0 <= i < b - a ==> xs[a..b][i] == xs[a + i];
  }

  lemma {:induction false} AllAppend<T>(xs: seq<T>, ys: seq<T>, p: T -> bool)
    ensures All(xs + ys, p) <==> All(xs, p) && All(ys, p)
  {
    if All(xs + ys, p) {
      assert xs == (xs + ys)[..|xs|];
      assert ys == (xs + ys)[|xs|..];
      AllSlice(xs + ys, 0, |xs|, p);
      AllSlice(xs + ys, |xs|, |xs + ys|, p);
    }
  }

  /** The list without the leading elements `p` picks out. */
  function DropWhile<T>(xs: seq<T>, p: T -> bool): (r: seq<T>)
    ensures |r| <= |xs|
  {
    if xs != [] && p(xs[0]) then DropWhile(xs[1..], p) else xs
  }

  /** What is dropped is the longest run of `p` at the front. */
  lemma {:induction false} DropWhileShape<T>(xs: seq<T>, p: T -> bool)
    ensures var r := DropWhile(xs, p);
            r == xs[|xs| - |r|..] && All(xs[..|xs| - |r|], p) && (r != [] ==> !p(r[0]))
  {
    if xs != [] && p(xs[0]) {
      DropWhileShape(xs[1..], p);
      var r := DropWhile(xs, p);
      assert xs[..|xs| - |r|] == [xs[0]] + xs[1..][..|xs| - 1 - |r|];
    }
  }

  /** The list without the trailing elements `p` picks out. */
  function DropWhileEnd<T>(xs: seq<T>, p: T -> bool): (r: seq<T>)
    ensures |r| <= |xs|
  {
    if xs != [] && p(xs[|xs| - 1]) then DropWhileEnd(xs[..|xs| - 1], p) else xs
  }

  /** What is dropped is the longest run of `p` at the back. */
  lemma {:induction false} DropWhileEndShape<T>(xs: seq<T>, p: T -> bool)
    ensures var r := DropWhileEnd(xs, p);
            r == xs[..|r|] && All(xs[|r|..], p) && (r != [] ==> !p(r[|r| - 1]))
  {
    if xs != [] && p(xs[|xs| - 1]) {
      DropWhileEndShape(xs[..|xs| - 1], p);
      var r := DropWhileEnd(xs, p);
      assert xs[|r|..] == xs[..|xs| - 1][|r|..] + [xs[|xs| - 1]];
    }
  }

  /** `h` is a contiguous run of `xs` with only elements `p` picks out around it. */
  predicate RunOf<T(==)>(h: seq<T>, xs: seq<T>, p: T -> bool)
  {
    exists a: nat :: a + |h| <= |xs| && h == xs[a..a + |h|] && All(xs[..a], p) && All(xs[a + |h|..], p)
  }

  /** Dropping from both ends leaves a contiguous run of the list, with only
      dropped elements around it and a kept element at each of its ends. */
  lemma {:induction false} Trimmed<T>(xs: seq<T>, p: T -> bool)
    ensures var h := DropWhileEnd(DropWhile(xs, p), p);
            RunOf(h, xs, p) && (h != [] ==> !p(h[0]) && !p(h[|h| - 1]))
  {
    var stripped := DropWhile(xs, p);
    var h := DropWhileEnd(stripped, p);
    DropWhileShape(xs, p);
    DropWhileEndShape(stripped, p);
    var a := |xs| - |stripped|;
    assert h == xs[a..a + |h|];
    assert xs[a + |h|..] == stripped[|h|..];
    if h != [] {
      assert h[0] == stripped[0];
    }
  }

  /** Leading elements are only dropped before the first kept one. */
  lemma {:induction false} DropWhileAppend<T>(a: seq<T>, b: seq<T>, p: T -> bool)
    ensures DropWhile(a + b, p) == if DropWhile(a, p) == [] then DropWhile(b, p) else DropWhile(a, p) + b
  {
    if a == [] {
      assert a + b == b;
    } else {
      assert (a + b)[1..] == a[1..] + b;
      DropWhileAppend(a[1..], b, p);
    }
  }

  /** Once an element at `i` is kept, everything from `i` on is kept. */
  lemma {:induction false} DropWhileSplit<T>(xs: seq<T>, start: nat, i: nat, p: T -> bool)
    requires start <= i < |xs|
    requires DropWhile(xs[start..i], p) != [] || !p(xs[i])
    ensures DropWhile(xs[start..], p) == DropWhile(xs[start..i], p) + xs[i..]
  {
    var after := xs[i..];
    assert xs[start..] == xs[start..i] + after;
    DropWhileAppend(xs[start..i], after, p);
    if DropWhile(xs[start..i], p) == [] {
      assert after[0] == xs[i];
      assert DropWhile(after, p) == after;
      assert [] + after == after;
    }
  }

  /** One more element read: it is kept unless nothing is kept yet and it is dropped. */
  lemma {:induction false} DropWhileSnoc<T>(xs: seq<T>, n: nat, p: T -> bool)
    requires n < |xs|
    ensures DropWhile(xs[..n + 1], p)
         == if DropWhile(xs[..n], p) == [] && p(xs[n]) then [] else DropWhile(xs[..n], p) + [xs[n]]
  {
    assert xs[..n + 1] == xs[..n] + [xs[n]];
    DropWhileAppend(xs[..n], [xs[n]], p);
  }

  /** The leading run ends at `n`. */
  lemma {:induction false} DropWhileAt<T>(xs: seq<T>, n: nat, p: T -> bool)
    requires n <= |xs| && All(xs[..n], p)
    requires n < |xs| ==> !p(xs[n])
    ensures DropWhile(xs, p) == xs[n..]
  {
    if n > 0 {
      assert xs[1..][..n - 1] == xs[..n][1..];
      DropWhileAt(xs[1..], n - 1, p);
      assert xs[1..][n - 1..] == xs[n..];
    }
  }

  /** The trailing run starts at `n`. */
  lemma {:induction false} DropWhileEndAt<T>(xs: seq<T>, n: nat, p: T -> bool)
    requires n <= |xs| && All(xs[n..], p)
    requires n > 0 ==> !p(xs[n - 1])
    ensures DropWhileEnd(xs, p) == xs[..n]
    decreases |xs|
  {
    if n < |xs| {
      assert xs[..|xs| - 1][n..] == xs[n..|xs| - 1];
      DropWhileEndAt(xs[..|xs| - 1], n, p);
      assert xs[..|xs| - 1][..n] == xs[..n];
    } else {
      assert xs[..n] == xs;
    }
  }

  /** A run of dropped elements in front of a kept one is dropped. */
  lemma {:induction false} DropWhilePrefix<T>(run: seq<T>, rest: seq<T>, p: T -> bool)
    requires All(run, p) && (rest != [] ==> !p(rest[0]))
    ensures DropWhile(run + rest, p) == rest
  {
    assert (run + rest)[..|run|] == run;
    DropWhileAt(run + rest, |run|, p);
    assert (run + rest)[|run|..] == rest;
  }

  /** A run of dropped elements after a kept one is dropped. */
  lemma {:induction false} DropWhileEndSuffix<T>(xs: seq<T>, run: seq<T>, p: T -> bool)
    requires All(run, p) && (xs != [] ==> !p(xs[|xs| - 1]))
    ensures DropWhileEnd(xs + run, p) == xs
  {
    assert (xs + run)[|xs|..] == run;
    DropWhileEndAt(xs + run, |xs|, p);
    assert (xs + run)[..|xs|] == xs;
  }

  /** Trailing dropped elements do not change what is kept. */
  lemma {:induction false} DropWhileEndRun<T>(xs: seq<T>, run: seq<T>, p: T -> bool)
    requires All(run, p)
    ensures DropWhileEnd(xs + run, p) == DropWhileEnd(xs, p)
    decreases |run|
  {
    if run == [] {
      assert xs + run == xs;
    } else {
      var init := run[..|run| - 1];
      assert (xs + run)[..|xs + run| - 1] == xs + init;
      AllSlice(run, 0, |run| - 1, p);
      DropWhileEndRun(xs, init, p);
    }
  }

  /** The index of the first element `p` picks out, or the length when none. */
  function FindFirst<T>(xs: seq<T>, p: T -> bool): (k: nat)
    ensures k <= |xs|
  {
    if xs == [] || p(xs[0]) then 0 else 1 + FindFirst(xs[1..], p)
  }

  /** `FindFirst` is the first match: nothing before it matches. */
  lemma {:induction false} FindFirstShape<T>(xs: seq<T>, p: T -> bool)
    ensures var k := FindFirst(xs, p);
            (forall i :: 0 <= i < k ==> !p(xs[i])) && (k < |xs| ==> p(xs[k]))
  {
    if xs != [] && !p(xs[0]) {
      FindFirstShape(xs[1..], p);
      assert forall i :: 1 <= i < |xs| ==> xs[i] == xs[1..][i - 1];
    }
  }

  /** The first match is the index the properties above describe. */
  lemma {:induction false} FindFirstIs<T>(xs: seq<T>, p: T -> bool, k: nat)
    requires k <= |xs| && forall i :: 0 <= i < k ==> !p(xs[i])
    requires k < |xs| ==> p(xs[k])
    ensures FindFirst(xs, p) == k
  {
    if k > 0 {
      assert forall i :: 0 <= i < k - 1 ==> xs[1..][i] == xs[i + 1];
      FindFirstIs(xs[1..], p, k - 1);
    }
  }

  /** No match in `xs[start..i]` and none at `xs[i]`: none in `xs[start..i + 1]`. */
  lemma {:induction false} NoneBeforeNext<T>(xs: seq<T>, start: nat, i: nat, p: T -> bool)
    requires start <= i < |xs| && !p(xs[i])
    requires forall j :: start <= j < i ==> !p(xs[j])
    ensures forall j :: start <= j < i + 1 ==> !p(xs[j])
  {
  }

  /** What follows the first match does not move it. */
  lemma {:induction false} FindFirstPrefix<T>(a: seq<T>, b: seq<T>, p: T -> bool)
    requires FindFirst(a, p) < |a|
    ensures FindFirst(a + b, p) == FindFirst(a, p)
  {
    FindFirstShape(a, p);
    FindFirstIs(a + b, p, FindFirst(a, p));
  }

  lemma {:induction false} AppendAssociates<T>(x: seq<T>, a: seq<T>, b: seq<T>)
    ensures x + (a + b) == (x + a) + b
  {
  }

  /** The first `n` elements of a longer list are those of its prefix. */
  lemma {:induction false} PrefixOfAppend<T>(a: seq<T>, b: seq<T>, n: nat)
    requires n < |a|
    ensures (a + b)[..n] == a[..n] && (a + b)[n] == a[n]
  {
  }

  /** Dropping a prefix of the first part of a concatenation. */
  lemma {:induction false} SuffixOfAppend<T>(a: seq<T>, b: seq<T>, n: nat)
    requires n <= |a|
    ensures (a + b)[n..] == a[n..] + b && (a + b)[0..] == a + b && a[0..] == a
  {
  }

  /** Trimming a pair whose first element alone is dropped keeps the second. */
  lemma {:induction false} TrimPair<T>(x: T, y: T, p: T -> bool)
    requires p(x) && !p(y)
    ensures DropWhileEnd(DropWhile([x, y], p), p) == [y]
  {
    assert [x, y][1..] == [y];
    assert [y][1..] == [];
    assert [y][..0] == [];
  }

  /** A trailing marker: a `sep` element and then a `last` one, with only
      `space` elements before, between and after nothing. */
  predicate IsMark<T>(tail: seq<T>, last: T -> bool, sep: T -> bool, space: T -> bool)
  {
    exists i :: 0 <= i < |tail| - 1 && All(tail[..i], space) && sep(tail[i])
                && All(tail[i + 1..|tail| - 1], space) && last(tail[|tail| - 1])
  }

  /** The list before a trailing marker, read from the end: a `last` element,
      `space` elements, a `sep` element and `space` elements are taken off;
      none when the list does not end that way. */
  function StripMark<T>(xs: seq<T>, last: T -> bool, sep: T -> bool, space: T -> bool): Option<seq<T>>
  {
    if xs == [] || !last(xs[|xs| - 1]) then None
    else
      var beforeMark := DropWhileEnd(xs[..|xs| - 1], space);
      if beforeMark == [] || !sep(beforeMark[|beforeMark| - 1]) then None
      else Some(DropWhileEnd(beforeMark[..|beforeMark| - 1], space))
  }

  /** A list followed by a marker loses the marker and the `space` elements
      before it. */
  lemma {:induction false} StripMarked<T>(prefix: seq<T>, ws1: seq<T>, s: T, ws2: seq<T>, l: T,
                       last: T -> bool, sep: T -> bool, space: T -> bool)
    requires All(ws1, space) && sep(s) && !space(s) && All(ws2, space) && last(l)
    ensures StripMark(prefix + ws1 + [s] + ws2 + [l], last, sep, space) == Some(DropWhileEnd(prefix, space))
  {
    var xs := prefix + ws1 + [s] + ws2 + [l];
    assert xs[..|xs| - 1] == prefix + ws1 + [s] + ws2;
    DropWhileEndSuffix(prefix + ws1 + [s], ws2, space);
    var beforeMark := prefix + ws1 + [s];
    assert beforeMark[..|beforeMark| - 1] == prefix + ws1;
    DropWhileEndRun(prefix, ws1, space);
  }

  /** The marker, its `sep` element at `i`. */
  lemma {:induction false} MarkAt<T>(tail: seq<T>, i: nat, last: T -> bool, sep: T -> bool, space: T -> bool)
    requires i < |tail| - 1 && All(tail[..i], space) && sep(tail[i])
    requires All(tail[i + 1..|tail| - 1], space) && last(tail[|tail| - 1])
    ensures IsMark(tail, last, sep, space)
  {
  }

  /** The marker follows what is kept, once the `sep` element ending `bm` and
      the `space` runs around it are known. */
  lemma {:induction false} MarkAfter<T>(xs: seq<T>, bm: seq<T>, v: seq<T>, last: T -> bool, sep: T -> bool, space: T -> bool)
    requires 0 < |bm| < |xs| && bm == xs[..|bm|] && sep(bm[|bm| - 1]) && last(xs[|xs| - 1])
    requires All(xs[|bm|..|xs| - 1], space)
    requires |v| < |bm| && v == bm[..|v|] && All(bm[|v|..|bm| - 1], space)
    ensures v == xs[..|v|] && IsMark(xs[|v|..], last, sep, space)
  {
    var tail := xs[|v|..];
    var i := |bm| - 1 - |v|;
    assert tail[..i] == bm[|v|..|bm| - 1];
    assert tail[i] == bm[|bm| - 1];
    assert tail[i + 1..|tail| - 1] == xs[|bm|..|xs| - 1];
    MarkAt(tail, i, last, sep, space);
  }

  /** What is stripped is a marker: the result is a prefix, it ends with
      something other than `space`, and the rest is the marker. */
  lemma {:induction false} StripFound<T>(xs: seq<T>, last: T -> bool, sep: T -> bool, space: T -> bool)
    requires StripMark(xs, last, sep, space).Some?
    ensures var v := StripMark(xs, last, sep, space).value;
            |v| < |xs| && v == xs[..|v|] && (v != [] ==> !space(v[|v| - 1])) && IsMark(xs[|v|..], last, sep, space)
  {
    var before := xs[..|xs| - 1];
    var bm := DropWhileEnd(before, space);
    DropWhileEndShape(before, space);
    assert xs[|bm|..|xs| - 1] == before[|bm|..];
    var init := bm[..|bm| - 1];
    var v := DropWhileEnd(init, space);
    DropWhileEndShape(init, space);
    assert bm[|v|..|bm| - 1] == init[|v|..];
    MarkAfter(xs, bm, v, last, sep, space);
  }

  /** The list cut around a marker that starts at `n` and has its `sep` element at `n + i`. */
  lemma {:induction false} MarkPieces<T>(xs: seq<T>, n: nat, i: nat)
    requires n + i + 1 < |xs|
    ensures var tail := xs[n..];
            xs == xs[..n] + tail[..i] + [tail[i]] + tail[i + 1..|tail| - 1] + [tail[|tail| - 1]]
  {
    var tail := xs[n..];
    var m := |xs| - 1;
    assert xs[..n + i] == xs[..n] + tail[..i];
    assert xs[..n + i + 1] == xs[..n + i] + [tail[i]];
    assert xs[..m] == xs[..n + i + 1] + tail[i + 1..|tail| - 1];
    assert xs == xs[..m] + [tail[|tail| - 1]];
  }

  /** A list with a marker at `n` has something stripped. */
  lemma {:induction false} MarkStripped<T>(xs: seq<T>, n: nat, last: T -> bool, sep: T -> bool, space: T -> bool)
    requires forall t :: sep(t) ==> !space(t)
    requires n < |xs| && IsMark(xs[n..], last, sep, space)
    ensures StripMark(xs, last, sep, space).Some?
  {
    var tail := xs[n..];
    var i :| 0 <= i < |tail| - 1 && All(tail[..i], space) && sep(tail[i])
             && All(tail[i + 1..|tail| - 1], space) && last(tail[|tail| - 1]);
    MarkPieces(xs, n, i);
    StripMarked(xs[..n], tail[..i], tail[i], tail[i + 1..|tail| - 1], tail[|tail| - 1], last, sep, space);
  }

  /** Nothing is stripped exactly when no suffix is a marker. */
  lemma {:induction false} StripAbsent<T>(xs: seq<T>, last: T -> bool, sep: T -> bool, space: T -> bool)
    requires forall t :: sep(t) ==> !space(t)
    ensures StripMark(xs, last, sep, space).None? <==> forall n :: 0 <= n < |xs| ==> !IsMark(xs[n..], last, sep, space)
  {
    if StripMark(xs, last, sep, space).Some? {
      StripFound(xs, last, sep, space);
    } else {
      forall n | 0 <= n < |xs| ensures !IsMark(xs[n..], last, sep, space) {
        if IsMark(xs[n..], last, sep, space) {
          MarkStripped(xs, n, last, sep, space);
        }
      }
    }
  }
}
