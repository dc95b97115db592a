/**
 * A container's life: it is constructed, and then the host makes any
 * sequence of calls on it. The checker list is the container's only state,
 * and only registration changes it; membership queries and both dispatches,
 * whether they return normally or end with a checker's error, leave it as it
 * was. This module runs a sequence of calls and proves that the list only
 * ever grows at its end.
 */
module Session {
  import opened CheckerResults
  import opened Dispatcher
  import opened Container

  /** One public call on the container. */
  datatype Call<C, D, O, K, R, S, X> =
    | Add(checker: C)
    | Contains(checker: C)
    | CheckDocument(context: D)
    | CheckObject(payload: ObjectPayload<O, K, R, S, X>)

  /** What a call gives back to the host. */
  datatype Reply<C, D, O, K, R, S, X, E> =
    | Registered
    | Membership(present: bool)
    | DocumentChecked(documentReport: Report<C, D, E>)
    | ObjectChecked(objectReport: Report<C, ObjectPayload<O, K, R, S, X>, E>)

  /**
   * The container after one call, and that call's reply. A membership query
   * answers whether the checker is in the list; a dispatch returns normally
   * exactly when every registered checker accepts, and then its trace asks
   * all of them in order. Only a registration changes the container: the
   * query and the dispatches yield no container at all, so the one passed on
   * is the one they were given.
   */
  function Step<C(==), D, O, K, R, S, X, E>(
    k: ValidationContainer<C>, call: Call<C, D, O, K, R, S, X>,
    validateDocument: Verdict<C, D, E>, validateObject: Verdict<C, ObjectPayload<O, K, R, S, X>, E>)
    : (r: (ValidationContainer<C>, Reply<C, D, O, K, R, S, X, E>))
    ensures !call.Add? ==> r.0 == k
    ensures call.Contains? ==> r.1 == Membership(call.checker in k.checkers)
    ensures call.CheckDocument? ==>
              && r.1.DocumentChecked?
              && (r.1.documentReport.failure.Absent? <==> AllPass(k.checkers, call.context, validateDocument))
              && (r.1.documentReport.failure.Absent? ==> r.1.documentReport.trace == Calls(k.checkers, call.context))
    ensures call.CheckObject? ==>
              && r.1.ObjectChecked?
              && (r.1.objectReport.failure.Absent? <==> AllPass(k.checkers, call.payload, validateObject))
              && (r.1.objectReport.failure.Absent? ==> r.1.objectReport.trace == Calls(k.checkers, call.payload))
    ensures call.Add? ==> r.0 == AddChecker(k, call.checker)
  {
    match call
    case Add(c) => (AddChecker(k, c), Registered)
    case Contains(c) => (k, Membership(ContainsChecker(k, c)))
    case CheckDocument(context) => (k, DocumentChecked(ValidateDocument(k, context, validateDocument)))
    case CheckObject(p) =>
      (k, ObjectChecked(ValidateObject(k, p.obj, p.key, p.resources, p.contentStream, p.extra, validateObject)))
  }

  /** The container after a sequence of calls, and the replies in call order. */
  function Run<C(==), D, O, K, R, S, X, E>(
    k: ValidationContainer<C>, calls: seq<Call<C, D, O, K, R, S, X>>,
    validateDocument: Verdict<C, D, E>, validateObject: Verdict<C, ObjectPayload<O, K, R, S, X>, E>)
    : (r: (ValidationContainer<C>, seq<Reply<C, D, O, K, R, S, X, E>>))
    ensures |r.1| == |calls|
    decreases |calls|
  {
    if |calls| == 0 then
      (k, [])
    else
      var before := Run(k, calls[..|calls| - 1], validateDocument, validateObject);
      var after := Step(before.0, calls[|calls| - 1], validateDocument, validateObject);
      (after.0, before.1 + [after.1])
  }

  /** The checkers registered by a sequence of calls, in call order. */
  function Registrations<C, D, O, K, R, S, X>(calls: seq<Call<C, D, O, K, R, S, X>>): seq<C>
    decreases |calls|
  {
    if |calls| == 0 then []
    else
      var earlier := Registrations(calls[..|calls| - 1]);
      match calls[|calls| - 1]
      case Add(c) => earlier + [c]
      case _ => earlier
  }

  /**
   * Append-only: after any sequence of calls the list is the starting list
   * followed by exactly the checkers registered, in registration order.
   * Queries and dispatches contribute nothing, and nothing is ever removed.
   */
  lemma {:induction false} RunAppendsRegistrations<C, D, O, K, R, S, X, E>(
    k: ValidationContainer<C>, calls: seq<Call<C, D, O, K, R, S, X>>,
    validateDocument: Verdict<C, D, E>, validateObject: Verdict<C, ObjectPayload<O, K, R, S, X>, E>)
    ensures Run(k, calls, validateDocument, validateObject).0.checkers == k.checkers + Registrations(calls)
    decreases |calls|
  {
    if |calls| == 0 {
      assert k.checkers + [] == k.checkers;
    } else {
      var init := calls[..|calls| - 1];
      RunAppendsRegistrations(k, init, validateDocument, validateObject);
      match calls[|calls| - 1]
      case Add(c) =>
        assert k.checkers + Registrations(init) + [c] == k.checkers + (Registrations(init) + [c]);
      case _ =>
    }
  }

  /**
   * Calls that register nothing leave the container exactly as it was,
   * however many queries and dispatches they make and however those end.
   */
  lemma RunWithoutRegistrations<C, D, O, K, R, S, X, E>(
    k: ValidationContainer<C>, calls: seq<Call<C, D, O, K, R, S, X>>,
    validateDocument: Verdict<C, D, E>, validateObject: Verdict<C, ObjectPayload<O, K, R, S, X>, E>)
    requires Registrations(calls) == []
    ensures Run(k, calls, validateDocument, validateObject).0 == k
  {
    RunAppendsRegistrations(k, calls, validateDocument, validateObject);
    assert k.checkers + [] == k.checkers;
  }

  /**
   * Every reply is computed against the container as the earlier calls left
   * it: a dispatch made after some registrations sees exactly those checkers,
   * in registration order.
   */
  lemma {:induction false} RunReplies<C, D, O, K, R, S, X, E>(
    k: ValidationContainer<C>, calls: seq<Call<C, D, O, K, R, S, X>>,
    validateDocument: Verdict<C, D, E>, validateObject: Verdict<C, ObjectPayload<O, K, R, S, X>, E>)
    ensures forall i :: 0 <= i < |calls| ==>
              Run(k, calls, validateDocument, validateObject).1[i]
              == Step(ValidationContainer(k.checkers + Registrations(calls[..i])), calls[i],
                      validateDocument, validateObject).1
    decreases |calls|
  {
    if |calls| > 0 {
      var n := |calls| - 1;
      var init := calls[..n];
      RunReplies(k, init, validateDocument, validateObject);
      RunAppendsRegistrations(k, init, validateDocument, validateObject);
      forall i | 0 <= i < |calls|
        ensures Run(k, calls, validateDocument, validateObject).1[i]
                == Step(ValidationContainer(k.checkers + Registrations(calls[..i])), calls[i],
                        validateDocument, validateObject).1
      {
        if i < n {
          assert init[..i] == calls[..i];
          assert init[i] == calls[i];
        } else {
          assert calls[..i] == init;
        }
      }
    }
  }

  /**
   * Once registered, a checker stays registered: a membership query that
   * succeeds keeps succeeding whatever calls follow.
   */
  lemma ContainsIsStable<C, D, O, K, R, S, X, E>(
    k: ValidationContainer<C>, calls: seq<Call<C, D, O, K, R, S, X>>, c: C,
    validateDocument: Verdict<C, D, E>, validateObject: Verdict<C, ObjectPayload<O, K, R, S, X>, E>)
    requires ContainsChecker(k, c)
    ensures ContainsChecker(Run(k, calls, validateDocument, validateObject).0, c)
  {
    RunAppendsRegistrations(k, calls, validateDocument, validateObject);
  }
}
