/** Shared vocabulary of both detectors: an optional value, the verdict every
    check returns, and the two "first one wins" scans the detectors are made of. */
module Basics {

  datatype Option<+T> = None | Some(value: T)

  /** The `(is_valid, reason)` pair of a check: `(True, None)` is `Valid`,
      `(False, reason)` is `Invalid(reason)`. */
  datatype Verdict<+R> = Valid | Invalid(reason: R)

  /** Python's `s[:n]` for a non-negative `n`: the first `n` elements, or all
      of them when there are fewer. */
  function Take<T>(s: seq<T>, n: nat): (r: seq<T>)
    ensures |r| == if |s| < n then |s| else n
    ensures r <= s
  {
    if |s| <= n then s else s[..n]
  }

  /** The index at which an early-return `for` loop over `xs` stops: the
      first element satisfying `p`, or `None` when the loop runs to the end. */
  function FirstWhere<T>(xs: seq<T>, p: T -> bool): (r: Option<nat>)
    ensures r.None? <==> forall i :: 0 <= i < |xs| ==> !p(xs[i])
    ensures r.Some? ==> r.value < |xs| && p(xs[r.value])
    ensures r.Some? ==> forall i :: 0 <= i < r.value ==> !p(xs[i])
    decreases |xs|
  {
    if xs == [] then None
    else if p(xs[0]) then Some(0)
    else
      match FirstWhere(xs[1..], p)
      case None =>
        assert forall i :: 1 <= i < |xs| ==> xs[i] == xs[1..][i - 1];
        None
      case Some(k) =>
        assert forall i :: 1 <= i <= k + 1 ==> xs[i] == xs[1..][i - 1];
        Some(k + 1)
  }

  /** One early-return step: a failing verdict stops the sequence, a passing
      one hands over to the rest. */
  function Then<R>(v: Verdict<R>, rest: Verdict<R>): (r: Verdict<R>)
    ensures v.Invalid? ==> r == v
    ensures v.Valid? ==> r == rest
  {
    if v.Invalid? then v else rest
  }

  /** A sequence of checks run in order, stopping at the first failure: the
      verdict of the whole sequence. */
  function FirstFailure<R>(stages: seq<Verdict<R>>): Verdict<R>
    decreases |stages|
  {
    if stages == [] then Valid else Then(stages[0], FirstFailure(stages[1..]))
  }

  /** The sequence passes exactly when every stage passes, and otherwise
      reports the reason of the earliest failing stage. */
  lemma {:induction false} FirstFailureIsEarliest<R>(stages: seq<Verdict<R>>)
    ensures FirstFailure(stages).Valid? <==> forall i :: 0 <= i < |stages| ==> stages[i].Valid?
    ensures FirstFailure(stages).Invalid? ==>
      exists k :: 0 <= k < |stages| && stages[k] == FirstFailure(stages) &&
        forall i :: 0 <= i < k ==> stages[i].Valid?
    decreases |stages|
  {
    if stages != [] && stages[0].Valid? {
      var rest := stages[1..];
      FirstFailureIsEarliest(rest);
      assert forall i :: 1 <= i < |stages| ==> stages[i] == rest[i - 1];
      if FirstFailure(rest).Invalid? {
        var k :| 0 <= k < |rest| && rest[k] == FirstFailure(rest) &&
          forall i :: 0 <= i < k ==> rest[i].Valid?;
        assert stages[k + 1] == FirstFailure(stages);
      }
    }
  }

  /** Running two sequences of checks one after the other is running their
      concatenation. */
  lemma {:induction false} FirstFailureAppend<R>(xs: seq<Verdict<R>>, ys: seq<Verdict<R>>)
    ensures FirstFailure(xs + ys) == Then(FirstFailure(xs), FirstFailure(ys))
    decreases |xs|
  {
    if xs != [] {
      assert (xs + ys)[1..] == xs[1..] + ys;
      FirstFailureAppend(xs[1..], ys);
    } else {
      assert xs + ys == ys;
    }
  }

  lemma FirstFailureCons<R>(v: Verdict<R>, rest: seq<Verdict<R>>)
    ensures FirstFailure([v] + rest) == Then(v, FirstFailure(rest))
  {
    assert ([v] + rest)[1..] == rest;
  }

  lemma FirstFailureOfTwo<R>(a: Verdict<R>, b: Verdict<R>, rest: seq<Verdict<R>>)
    ensures FirstFailure([a, b] + rest) == Then(a, Then(b, FirstFailure(rest)))
  {
    FirstFailureCons(b, rest);
    assert [a, b] + rest == [a] + ([b] + rest);
    FirstFailureCons(a, [b] + rest);
  }

  lemma FirstFailureOfFour<R>(a: Verdict<R>, b: Verdict<R>, c: Verdict<R>, d: Verdict<R>,
                              rest: seq<Verdict<R>>)
    ensures FirstFailure([a, b, c, d] + rest) ==
      Then(a, Then(b, Then(c, Then(d, FirstFailure(rest)))))
  {
    FirstFailureOfTwo(c, d, rest);
    assert [a, b, c, d] + rest == [a, b] + ([c, d] + rest);
    FirstFailureOfTwo(a, b, [c, d] + rest);
  }

  /** Eight checks followed by further ones, as a chain of early returns. */
  lemma FirstFailureOfEight<R>(a: Verdict<R>, b: Verdict<R>, c: Verdict<R>, d: Verdict<R>,
                               e: Verdict<R>, f: Verdict<R>, g: Verdict<R>, h: Verdict<R>,
                               rest: seq<Verdict<R>>)
    ensures FirstFailure([a, b, c, d, e, f, g, h] + rest) ==
      Then(a, Then(b, Then(c, Then(d, Then(e, Then(f, Then(g, Then(h, FirstFailure(rest)))))))))
  {
    FirstFailureOfFour(e, f, g, h, rest);
    assert [a, b, c, d, e, f, g, h] + rest == [a, b, c, d] + ([e, f, g, h] + rest);
    FirstFailureOfFour(a, b, c, d, [e, f, g, h] + rest);
  }

  /** Three checks as a chain of early returns. */
  lemma FirstFailureOfThree<R>(a: Verdict<R>, b: Verdict<R>, c: Verdict<R>)
    ensures FirstFailure([a, b, c]) == Then(a, Then(b, Then(c, Valid)))
  {
    FirstFailureOfTwo(b, c, []);
    assert [b, c] + [] == [b, c];
    assert [a, b, c] == [a] + [b, c];
    FirstFailureCons(a, [b, c]);
  }
}
