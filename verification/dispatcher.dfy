/**
 * The linear, fail-fast fan-out that both `validate` overloads of the
 * validation container perform: every checker of an ordered list is asked,
 * in list order, about the same argument, and the first one that raises an
 * error ends the dispatch with that error.
 *
 * A checker is an opaque handle of type C. What a checker does when asked is
 * a pure verdict function; it is a parameter because checker implementations
 * are outside this model.
 */
module Dispatcher {
  import opened CheckerResults

  /** How a checker answers when asked about an argument of type A. */
  type Verdict<!C, !A, E> = (C, A) -> CheckResult<E>

  /** One call the container made: which checker it asked and with what argument. */
  datatype Invocation<C, A> = Invocation(checker: C, arg: A)

  /**
   * The observable result of one dispatch: the calls made, in the order they
   * were made, and the error that ended the dispatch (Absent when it returned
   * normally).
   */
  datatype Report<C, A, E> = Report(trace: seq<Invocation<C, A>>, failure: Maybe<E>)

  /** The calls made to `cs`, in order, each with the unchanged argument `a`. */
  function Calls<C, A>(cs: seq<C>, a: A): (r: seq<Invocation<C, A>>)
    ensures |r| == |cs|
    ensures forall i :: 0 <= i < |cs| ==> r[i] == Invocation(cs[i], a)
  {
    seq(|cs|, i requires 0 <= i < |cs| => Invocation(cs[i], a))
  }

  /** Every checker of `cs` accepts `a`. */
  predicate AllPass<C, A, E>(cs: seq<C>, a: A, verdict: Verdict<C, A, E>)
  {
    forall i :: 0 <= i < |cs| ==> verdict(cs[i], a).Passed?
  }

  /**
   * Sequential composition of two dispatches over consecutive lists: the
   * second list is only reached when the first returned normally.
   */
  function Then<C, A, E>(first: Report<C, A, E>, rest: Report<C, A, E>): Report<C, A, E>
  {
    if first.failure.Present? then first else Report(first.trace + rest.trace, rest.failure)
  }

  /**
   * The fan-out: asks the checkers front to back and stops at the first
   * error. A dispatch that returned normally asked every checker; one that
   * failed asked at least one. `FanOutShape` says which ones and with what.
   */
  function FanOut<C, A, E>(cs: seq<C>, a: A, verdict: Verdict<C, A, E>): (r: Report<C, A, E>)
    ensures |r.trace| <= |cs|
    ensures r.failure.Absent? ==> |r.trace| == |cs|
    ensures r.failure.Present? ==> 0 < |r.trace|
    decreases |cs|
  {
    if |cs| == 0 then
      Report([], Absent)
    else
      match verdict(cs[0], a)
      case Failed(e) => Report([Invocation(cs[0], a)], Present(e))
      case Passed =>
        var rest := FanOut(cs[1..], a, verdict);
        Report([Invocation(cs[0], a)] + rest.trace, rest.failure)
  }

  /**
   * What a fan-out did, pinned down completely: the trace is a prefix of the
   * list, each checker asked once, in order, with the unchanged argument;
   * every checker asked passed except the last one asked when the dispatch
   * failed, and the reported error is exactly that checker's.
   */
  lemma {:induction false} FanOutShape<C, A, E>(cs: seq<C>, a: A, verdict: Verdict<C, A, E>)
    ensures var r := FanOut(cs, a, verdict);
            && (forall i :: 0 <= i < |r.trace| ==> r.trace[i] == Invocation(cs[i], a))
            && (r.failure.Present? ==> verdict(cs[|r.trace| - 1], a) == Failed(r.failure.value))
            && (forall i :: 0 <= i < |r.trace| && (r.failure.Absent? || i < |r.trace| - 1) ==>
                  verdict(cs[i], a) == Passed)
    decreases |cs|
  {
    if |cs| > 0 && verdict(cs[0], a).Passed? {
      FanOutShape(cs[1..], a, verdict);
      var rest := FanOut(cs[1..], a, verdict);
      var r := FanOut(cs, a, verdict);
      assert r.trace == [Invocation(cs[0], a)] + rest.trace;
      forall i | 1 <= i < |r.trace|
        ensures r.trace[i] == rest.trace[i - 1] && cs[i] == cs[1..][i - 1]
      {
      }
    }
  }

  /**
   * The loop the container runs: a for-each over the list that calls each
   * checker in turn and stops at the first error. It computes the fan-out.
   */
  method Dispatch<C, A, E>(cs: seq<C>, a: A, verdict: Verdict<C, A, E>)
      returns (trace: seq<Invocation<C, A>>, failure: Maybe<E>)
    ensures Report(trace, failure) == FanOut(cs, a, verdict)
  {
    trace := [];
    var i := 0;
    assert cs[i..] == cs;
    while i < |cs|
      invariant 0 <= i <= |cs|
      invariant FanOut(cs, a, verdict) == Then(Report(trace, Absent), FanOut(cs[i..], a, verdict))
    {
      var checker := cs[i];
      assert cs[i..][0] == checker && cs[i..][1..] == cs[i + 1..];
      trace := trace + [Invocation(checker, a)];
      match verdict(checker, a)
      case Failed(e) =>
        return trace, Present(e);
      case Passed =>
      i := i + 1;
    }
    failure := Absent;
  }

  /** A dispatch over no checkers asks nobody and returns normally. */
  lemma EmptyFanOut<C, A, E>(a: A, verdict: Verdict<C, A, E>)
    ensures FanOut([], a, verdict) == Report([], Absent)
  {
  }

  /**
   * A dispatch returns normally exactly when every checker accepts, and then
   * it has asked every checker once, in order, with the same argument.
   */
  lemma {:induction false} FanOutSucceeds<C, A, E>(cs: seq<C>, a: A, verdict: Verdict<C, A, E>)
    ensures AllPass(cs, a, verdict) <==> FanOut(cs, a, verdict) == Report(Calls(cs, a), Absent)
  {
    FanOutShape(cs, a, verdict);
    var r := FanOut(cs, a, verdict);
    if AllPass(cs, a, verdict) {
      assert r.trace == Calls(cs, a);
    }
  }

  /**
   * Fail-fast: when the checker at position k is the first to raise an
   * error, exactly positions 0..k are asked and the dispatch ends with that
   * checker's own error, unwrapped.
   */
  lemma {:induction false} FanOutFailsFast<C, A, E>(cs: seq<C>, a: A, verdict: Verdict<C, A, E>, k: nat)
    requires k < |cs|
    requires verdict(cs[k], a).Failed?
    requires AllPass(cs[..k], a, verdict)
    ensures FanOut(cs, a, verdict) == Report(Calls(cs[..k + 1], a), Present(verdict(cs[k], a).error))
  {
    forall i | 0 <= i < k
      ensures verdict(cs[i], a).Passed?
    {
      assert cs[..k][i] == cs[i];
    }
    FanOutShape(cs, a, verdict);
    var r := FanOut(cs, a, verdict);
    assert |r.trace| == k + 1;
    assert r.trace == Calls(cs[..k + 1], a);
  }

  /**
   * A failed dispatch failed at its last call: every checker asked before
   * that one accepted.
   */
  lemma FanOutFailurePrefix<C, A, E>(cs: seq<C>, a: A, verdict: Verdict<C, A, E>)
    ensures var r := FanOut(cs, a, verdict);
            r.failure.Present? ==> AllPass(cs[..|r.trace| - 1], a, verdict)
  {
    FanOutShape(cs, a, verdict);
    var r := FanOut(cs, a, verdict);
    if r.failure.Present? {
      var m := |r.trace| - 1;
      forall i | 0 <= i < m
        ensures verdict(cs[..m][i], a).Passed?
      {
        assert cs[..m][i] == cs[i];
      }
    }
  }

  /**
   * Dispatching over a concatenated list is dispatching over the first part
   * and, only if that returned normally, then over the second.
   */
  lemma {:induction false} FanOutConcat<C, A, E>(xs: seq<C>, ys: seq<C>, a: A, verdict: Verdict<C, A, E>)
    ensures FanOut(xs + ys, a, verdict) == Then(FanOut(xs, a, verdict), FanOut(ys, a, verdict))
    decreases |xs|
  {
    if |xs| == 0 {
      assert xs + ys == ys;
    } else {
      var zs := xs + ys;
      var first := Invocation(xs[0], a);
      assert zs[0] == xs[0];
      assert zs[1..] == xs[1..] + ys;
      match verdict(xs[0], a)
      case Failed(e) =>
        assert FanOut(zs, a, verdict) == Report([first], Present(e));
        assert FanOut(xs, a, verdict) == Report([first], Present(e));
      case Passed =>
        var tail := FanOut(xs[1..], a, verdict);
        var later := FanOut(ys, a, verdict);
        assert FanOut(xs, a, verdict) == Report([first] + tail.trace, tail.failure);
        assert FanOut(zs, a, verdict)
            == Report([first] + FanOut(xs[1..] + ys, a, verdict).trace, FanOut(xs[1..] + ys, a, verdict).failure);
        FanOutConcat(xs[1..], ys, a, verdict);
        if tail.failure.Absent? {
          assert [first] + (tail.trace + later.trace) == ([first] + tail.trace) + later.trace;
        }
    }
  }
}
