/** Reading a token stream as a sequence of items (the statements of a
    stylesheet): skippable tokens are passed over, and from any other token a
    reader gives the item with the errors recovered inside it, or the error that
    drops it, and how many of the following tokens it consumed. Stated over any
    token, item and error type, so the proofs do not depend on what they hold. */
module Collect {
  import opened Results
  import opened Lists

  /** The outcome of reading one item and how many following tokens it consumed. */
  type Reader<!T, S, E> = (T, seq<T>) -> (Result<(S, seq<E>), E>, nat)

  /** A reader never consumes more than what follows. */
  ghost predicate Bounded<T(!new), S, E>(read: Reader<T, S, E>)
  {
    forall t, rest :: read(t, rest).1 <= |rest|
  }

  /** An item's outcome put in front of what the following ones gave. */
  function Then<S, E>(outcome: Result<(S, seq<E>), E>, later: (seq<S>, seq<E>)): (seq<S>, seq<E>)
  {
    match outcome
    case Ok((item, errors)) => ([item] + later.0, errors + later.1)
    case Err(e) => (later.0, [e] + later.1)
  }

  /** Everything read from `ts`: the items in order, and every error in order. */
  function CollectAll<T(!new), S, E>(ts: seq<T>, skip: T -> bool, read: Reader<T, S, E>): (seq<S>, seq<E>)
    requires Bounded(read)
    decreases |ts|
  {
    if ts == [] then ([], [])
    else if skip(ts[0]) then CollectAll(ts[1..], skip, read)
    else
      var (outcome, n) := read(ts[0], ts[1..]);
      Then(outcome, CollectAll(ts[1 + n..], skip, read))
  }

  /** What has been collected followed by what has not been read yet. */
  function Join<S, E>(done: (seq<S>, seq<E>), later: (seq<S>, seq<E>)): (seq<S>, seq<E>)
  {
    (done.0 + later.0, done.1 + later.1)
  }

  lemma {:induction false} JoinNothing<S, E>(x: (seq<S>, seq<E>))
    ensures Join(([], []), x) == x && Join(x, ([], [])) == x
  {
    assert [] + x.0 == x.0 + [] == x.0;
    assert [] + x.1 == x.1 + [] == x.1;
  }

  /** An outcome put in front of two parts is put in front of the first. */
  lemma {:induction false} ThenJoin<S, E>(outcome: Result<(S, seq<E>), E>, x: (seq<S>, seq<E>), y: (seq<S>, seq<E>))
    ensures Then(outcome, Join(x, y)) == Join(Then(outcome, x), y)
  {
    if outcome.Ok? {
      AppendAssociates([outcome.value.0], x.0, y.0);
      AppendAssociates(outcome.value.1, x.1, y.1);
    } else {
      AppendAssociates([outcome.error], x.1, y.1);
    }
  }

  /** Recording one outcome moves it from what is left to what is collected. */
  lemma {:induction false} JoinThen<S, E>(done: (seq<S>, seq<E>), outcome: Result<(S, seq<E>), E>, later: (seq<S>, seq<E>))
    ensures Join(done, Then(outcome, later)) == Join(Join(done, Then(outcome, ([], []))), later)
  {
    if outcome.Ok? {
      AppendAssociates(done.0, [outcome.value.0], later.0);
      AppendAssociates(done.1, outcome.value.1, later.1);
      assert [outcome.value.0] + [] == [outcome.value.0];
      assert outcome.value.1 + [] == outcome.value.1;
    } else {
      AppendAssociates(done.1, [outcome.error], later.1);
      assert [outcome.error] + [] == [outcome.error];
      assert done.0 + [] == done.0;
    }
  }

  /** The appends of one turn of the reading loop: the item kept with the
      errors recovered inside it, or the error that dropped it. */
  method Record<S, E>(items: seq<S>, errors: seq<E>, outcome: Result<(S, seq<E>), E>)
    returns (items': seq<S>, errors': seq<E>)
    ensures (items', errors') == Join((items, errors), Then(outcome, ([], [])))
  {
    if outcome.Ok? {
      items' := items + [outcome.value.0];
      errors' := errors + outcome.value.1;
      assert [outcome.value.0] + [] == [outcome.value.0];
      assert outcome.value.1 + [] == outcome.value.1;
    } else {
      items' := items;
      errors' := errors + [outcome.error];
      assert [outcome.error] + [] == [outcome.error];
      assert items + [] == items;
    }
  }

  /** A skipped token contributes nothing. */
  lemma {:induction false} CollectSkip<T(!new), S, E>(ts: seq<T>, i: nat, skip: T -> bool, read: Reader<T, S, E>)
    requires Bounded(read) && i < |ts| && skip(ts[i])
    ensures CollectAll(ts[i..], skip, read) == CollectAll(ts[i + 1..], skip, read)
  {
    assert ts[i..][1..] == ts[i + 1..];
  }

  /** Any other token starts an item, read from the tokens after it; reading
      goes on after what the item consumed. */
  lemma {:induction false} CollectNext<T(!new), S, E>(ts: seq<T>, i: nat, skip: T -> bool, read: Reader<T, S, E>)
    requires Bounded(read) && i < |ts| && !skip(ts[i])
    ensures var (outcome, n) := read(ts[i], ts[i + 1..]);
            i + 1 + n <= |ts| && CollectAll(ts[i..], skip, read) == Then(outcome, CollectAll(ts[i + 1 + n..], skip, read))
  {
    var n := read(ts[i], ts[i + 1..]).1;
    assert ts[i..][0] == ts[i];
    assert ts[i..][1..] == ts[i + 1..];
    assert ts[i..][1 + n..] == ts[i + 1 + n..];
  }

  /** `CollectNext` for an item whose outcome and end are already known. */
  lemma {:induction false} CollectItem<T(!new), S, E>(ts: seq<T>, i: nat, skip: T -> bool, read: Reader<T, S, E>,
                                                      outcome: Result<(S, seq<E>), E>, end: nat)
    requires Bounded(read) && i < end <= |ts| && !skip(ts[i])
    requires read(ts[i], ts[i + 1..]) == (outcome, end - (i + 1))
    ensures CollectAll(ts[i..], skip, read) == Then(outcome, CollectAll(ts[end..], skip, read))
  {
    CollectNext(ts, i, skip, read);
  }

  /** The item starting at each token is read the same whatever follows the
      tokens `ends` says it ends within. */
  ghost predicate Stable<T(!new), S, E>(read: Reader<T, S, E>, ends: (T, seq<T>) -> bool)
  {
    forall t, a, b {:trigger read(t, a + b)} :: ends(t, a) ==> read(t, a + b) == read(t, a)
  }

  /** Every item of `ts` ends within `ts`. */
  ghost predicate Complete<T(!new), S, E>(ts: seq<T>, skip: T -> bool, read: Reader<T, S, E>, ends: (T, seq<T>) -> bool)
    requires Bounded(read)
    decreases |ts|
  {
    ts == [] ||
    if skip(ts[0]) then Complete(ts[1..], skip, read, ends)
    else ends(ts[0], ts[1..]) && Complete(ts[1 + read(ts[0], ts[1..]).1..], skip, read, ends)
  }

  /** Recovery: once every item of `p` has ended, what follows is read as if it
      stood alone, and its items and errors come after those of `p`. */
  lemma {:induction false} CollectAppend<T(!new), S, E>(p: seq<T>, q: seq<T>, skip: T -> bool, read: Reader<T, S, E>,
                                                  ends: (T, seq<T>) -> bool)
    requires Bounded(read) && Stable(read, ends) && Complete(p, skip, read, ends)
    ensures CollectAll(p + q, skip, read) == Join(CollectAll(p, skip, read), CollectAll(q, skip, read))
    decreases |p|
  {
    if p == [] {
      assert p + q == q;
      JoinNothing(CollectAll(q, skip, read));
    } else {
      var pq := p + q;
      assert pq[0] == p[0] && pq[1..] == p[1..] + q;
      if skip(p[0]) {
        CollectAppend(p[1..], q, skip, read, ends);
      } else {
        var (outcome, n) := read(p[0], p[1..]);
        assert read(p[0], p[1..] + q) == (outcome, n);
        assert pq[1 + n..] == p[1 + n..] + q;
        CollectAppend(p[1 + n..], q, skip, read, ends);
        ThenJoin(outcome, CollectAll(p[1 + n..], skip, read), CollectAll(q, skip, read));
      }
    }
  }

  /** A stream that is exactly one item gives that item's outcome, and the item
      ends within it when `ends` says so. */
  lemma {:induction false} CollectOne<T(!new), S, E>(ts: seq<T>, skip: T -> bool, read: Reader<T, S, E>, ends: (T, seq<T>) -> bool)
    requires Bounded(read) && ts != [] && !skip(ts[0]) && read(ts[0], ts[1..]).1 == |ts| - 1
    ensures CollectAll(ts, skip, read) == Then(read(ts[0], ts[1..]).0, ([], []))
    ensures ends(ts[0], ts[1..]) ==> Complete(ts, skip, read, ends)
  {
    assert ts[1 + (|ts| - 1)..] == [];
  }

  /** A list read as one item that is an error: no item, that error, and
      the item ends inside the list. */
  lemma {:induction false} CollectOneError<T(!new), S, E>(ts: seq<T>, skip: T -> bool, read: Reader<T, S, E>,
                                                       ends: (T, seq<T>) -> bool, e: E)
    requires Bounded(read) && ts != [] && !skip(ts[0]) && read(ts[0], ts[1..]) == (Err(e), |ts| - 1)
    requires ends(ts[0], ts[1..])
    ensures CollectAll(ts, skip, read) == ([], [e]) && Complete(ts, skip, read, ends)
  {
    CollectOne(ts, skip, read, ends);
    ThenError<S, E>(e);
  }

  /** An error alone gives no item and that error. */
  lemma {:induction false} ThenError<S, E>(e: E)
    ensures Then<S, E>(Err(e), ([], [])) == ([], [e])
  {
    assert [e] + [] == [e];
  }

  /** An item alone gives that item and the errors recovered inside it. */
  lemma {:induction false} ThenItem<S, E>(item: S, errors: seq<E>)
    ensures Then<S, E>(Ok((item, errors)), ([], [])) == ([item], errors)
  {
    assert [item] + [] == [item];
    assert errors + [] == errors;
  }
}
