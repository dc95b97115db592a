/**
 * The validation container: an ordered, append-only list of conformance
 * checkers, a membership query over it, and the two dispatch operations that
 * fan a document-level context or a per-object payload out to every checker.
 *
 * A checker is an opaque handle of type C whose equality is the identity the
 * list's membership test uses. What a checker does is supplied as a verdict
 * function per dispatch kind: `validateDocument` for the document-level
 * dispatch, `validateObject` for the object-level one.
 */
module Container {
  import opened CheckerResults
  import opened Dispatcher

  /** The container's state: its checkers in registration order. */
  datatype ValidationContainer<C> = ValidationContainer(checkers: seq<C>)

  /**
   * The five values the object-level dispatch forwards: the object under
   * test, its conformance key, and the resources, content stream (either may
   * be absent) and extra information that accompany it.
   */
  datatype ObjectPayload<O, K, R, S, X> =
    ObjectPayload(obj: O, key: K, resources: Maybe<R>, contentStream: Maybe<S>, extra: X)

  /** A freshly constructed container: no checkers are registered. */
  function New<C>(): (r: ValidationContainer<C>)
    ensures |r.checkers| == 0
  {
    ValidationContainer([])
  }

  /**
   * Registers a checker at the end of the list. Nothing is checked and
   * nothing is deduplicated: the old entries keep their positions and the new
   * one comes last, even if it is already present.
   */
  function AddChecker<C>(k: ValidationContainer<C>, checker: C): (r: ValidationContainer<C>)
    ensures |r.checkers| == |k.checkers| + 1
    ensures r.checkers[..|k.checkers|] == k.checkers
    ensures r.checkers[|k.checkers|] == checker
  {
    ValidationContainer(k.checkers + [checker])
  }

  /**
   * The position of the first entry of `cs` at or after `from` equal to `c`,
   * or -1 when there is none: the forward scan a list's membership test does.
   */
  function IndexOf<C(==)>(cs: seq<C>, c: C, from: nat): (r: int)
    requires from <= |cs|
    ensures r == -1 || from <= r < |cs|
    ensures r != -1 ==> cs[r] == c && forall j :: from <= j < r ==> cs[j] != c
    ensures r == -1 ==> forall j :: from <= j < |cs| ==> cs[j] != c
    decreases |cs| - from
  {
    if from == |cs| then -1
    else if cs[from] == c then from
    else IndexOf(cs, c, from + 1)
  }

  /** Whether some registered entry is the given checker. */
  function ContainsChecker<C(==)>(k: ValidationContainer<C>, checker: C): (r: bool)
    ensures r <==> exists i :: 0 <= i < |k.checkers| && k.checkers[i] == checker
  {
    IndexOf(k.checkers, checker, 0) >= 0
  }

  /**
   * Document-level dispatch: asks every checker, in registration order, about
   * the very same context, stopping at the first error. It returns normally
   * exactly when every registered checker accepts, and then it has asked all
   * of them; otherwise the error is the last asked checker's own, and every
   * checker asked before it accepted.
   */
  function ValidateDocument<C, D, E>(k: ValidationContainer<C>, context: D,
                                     validateDocument: Verdict<C, D, E>): (r: Report<C, D, E>)
    ensures |r.trace| <= |k.checkers|
    ensures forall i :: 0 <= i < |r.trace| ==>
              r.trace[i].checker == k.checkers[i] && r.trace[i].arg == context
    ensures r.failure.Absent? <==> AllPass(k.checkers, context, validateDocument)
    ensures r.failure.Absent? ==> r.trace == Calls(k.checkers, context)
    ensures r.failure.Present? ==>
              && 0 < |r.trace|
              && validateDocument(k.checkers[|r.trace| - 1], context) == Failed(r.failure.value)
              && AllPass(k.checkers[..|r.trace| - 1], context, validateDocument)
  {
    FanOutShape(k.checkers, context, validateDocument);
    FanOutSucceeds(k.checkers, context, validateDocument);
    FanOutFailurePrefix(k.checkers, context, validateDocument);
    FanOut(k.checkers, context, validateDocument)
  }

  /**
   * Object-level dispatch: asks every checker, in registration order, about
   * the same five values, absent resources or content stream included,
   * stopping at the first error. It returns normally exactly when every
   * registered checker accepts, and then it has asked all of them; otherwise
   * the error is the last asked checker's own, and every checker asked
   * before it accepted.
   */
  function ValidateObject<C, O, K, R, S, X, E>(k: ValidationContainer<C>, obj: O, key: K,
                                               resources: Maybe<R>, contentStream: Maybe<S>, extra: X,
                                               validateObject: Verdict<C, ObjectPayload<O, K, R, S, X>, E>)
    : (r: Report<C, ObjectPayload<O, K, R, S, X>, E>)
    ensures |r.trace| <= |k.checkers|
    ensures forall i :: 0 <= i < |r.trace| ==>
              && r.trace[i].checker == k.checkers[i]
              && r.trace[i].arg.obj == obj
              && r.trace[i].arg.key == key
              && r.trace[i].arg.resources == resources
              && r.trace[i].arg.contentStream == contentStream
              && r.trace[i].arg.extra == extra
    ensures var payload := ObjectPayload(obj, key, resources, contentStream, extra);
            && (r.failure.Absent? <==> AllPass(k.checkers, payload, validateObject))
            && (r.failure.Absent? ==> r.trace == Calls(k.checkers, payload))
            && (r.failure.Present? ==>
                  && 0 < |r.trace|
                  && validateObject(k.checkers[|r.trace| - 1], payload) == Failed(r.failure.value)
                  && AllPass(k.checkers[..|r.trace| - 1], payload, validateObject))
  {
    var payload := ObjectPayload(obj, key, resources, contentStream, extra);
    FanOutShape(k.checkers, payload, validateObject);
    FanOutSucceeds(k.checkers, payload, validateObject);
    FanOutFailurePrefix(k.checkers, payload, validateObject);
    FanOut(k.checkers, payload, validateObject)
  }

  /**
   * A new container holds no checkers: it contains nothing, and both
   * dispatches ask nobody and return normally.
   */
  lemma NewIsEmpty<C, D, O, K, R, S, X, E>(
    context: D, obj: O, key: K, resources: Maybe<R>, contentStream: Maybe<S>, extra: X,
    validateDocument: Verdict<C, D, E>, validateObject: Verdict<C, ObjectPayload<O, K, R, S, X>, E>)
    ensures forall c :: !ContainsChecker(New<C>(), c)
    ensures ValidateDocument(New(), context, validateDocument) == Report([], Absent)
    ensures ValidateObject(New(), obj, key, resources, contentStream, extra, validateObject) == Report([], Absent)
  {
  }

  /**
   * After registering `checker`, a query for `c` succeeds exactly when `c` is
   * that checker or was already registered: registering makes a checker
   * present and never makes another one absent.
   */
  lemma ContainsAfterAdd<C>(k: ValidationContainer<C>, checker: C, c: C)
    ensures ContainsChecker(AddChecker(k, checker), c) <==> c == checker || ContainsChecker(k, c)
  {
  }

  /**
   * Registering a checker that is already present still adds an entry: the
   * number of entries equal to it grows by one.
   */
  lemma AddDoesNotDeduplicate<C>(k: ValidationContainer<C>, checker: C)
    ensures multiset(AddChecker(k, checker).checkers)[checker] == multiset(k.checkers)[checker] + 1
  {
  }

  /**
   * A document-level dispatch after registering `checker` is the old dispatch
   * followed, only if that returned normally, by one call to `checker`.
   */
  lemma ValidateDocumentAfterAdd<C, D, E>(k: ValidationContainer<C>, checker: C, context: D,
                                          validateDocument: Verdict<C, D, E>)
    ensures var before := ValidateDocument(k, context, validateDocument);
            ValidateDocument(AddChecker(k, checker), context, validateDocument)
            == if before.failure.Present? then before
               else Report(before.trace + [Invocation(checker, context)],
                           match validateDocument(checker, context)
                           case Passed => Absent
                           case Failed(e) => Present(e))
  {
    FanOutConcat(k.checkers, [checker], context, validateDocument);
  }

  /**
   * An object-level dispatch after registering `checker` is the old dispatch
   * followed, only if that returned normally, by one call to `checker` with
   * the same five values.
   */
  lemma ValidateObjectAfterAdd<C, O, K, R, S, X, E>(k: ValidationContainer<C>, checker: C,
                                                    obj: O, key: K, resources: Maybe<R>,
                                                    contentStream: Maybe<S>, extra: X,
                                                    validateObject: Verdict<C, ObjectPayload<O, K, R, S, X>, E>)
    ensures var payload := ObjectPayload(obj, key, resources, contentStream, extra);
            var before := ValidateObject(k, obj, key, resources, contentStream, extra, validateObject);
            ValidateObject(AddChecker(k, checker), obj, key, resources, contentStream, extra, validateObject)
            == if before.failure.Present? then before
               else Report(before.trace + [Invocation(checker, payload)],
                           match validateObject(checker, payload)
                           case Passed => Absent
                           case Failed(e) => Present(e))
  {
    var payload := ObjectPayload(obj, key, resources, contentStream, extra);
    FanOutConcat(k.checkers, [checker], payload, validateObject);
  }

  /**
   * No deduplication at dispatch: when a checker is appended twice in a row,
   * every earlier checker accepts and the checker itself accepts, the
   * document-level dispatch ends with two calls to it. (When it rejects,
   * fail-fast stops at its first entry, so it is asked once.)
   */
  lemma DuplicateIsAskedTwice<C, D, E>(k: ValidationContainer<C>, checker: C, context: D,
                                       validateDocument: Verdict<C, D, E>)
    requires ValidateDocument(k, context, validateDocument).failure.Absent?
    requires validateDocument(checker, context).Passed?
    ensures ValidateDocument(AddChecker(AddChecker(k, checker), checker), context, validateDocument)
            == Report(ValidateDocument(k, context, validateDocument).trace
                        + [Invocation(checker, context), Invocation(checker, context)],
                      Absent)
  {
    var once := AddChecker(k, checker);
    ValidateDocumentAfterAdd(k, checker, context, validateDocument);
    ValidateDocumentAfterAdd(once, checker, context, validateDocument);
    var t := ValidateDocument(k, context, validateDocument).trace;
    assert t + [Invocation(checker, context)] + [Invocation(checker, context)]
        == t + [Invocation(checker, context), Invocation(checker, context)];
  }

  /**
   * The object-level twin: when a checker is appended twice in a row, every
   * earlier checker accepts and the checker itself accepts, it is asked
   * twice, with the same five values each time.
   */
  lemma ObjectDuplicateIsAskedTwice<C, O, K, R, S, X, E>(k: ValidationContainer<C>, checker: C,
                                                         obj: O, key: K, resources: Maybe<R>,
                                                         contentStream: Maybe<S>, extra: X,
                                                         validateObject: Verdict<C, ObjectPayload<O, K, R, S, X>, E>)
    requires ValidateObject(k, obj, key, resources, contentStream, extra, validateObject).failure.Absent?
    requires validateObject(checker, ObjectPayload(obj, key, resources, contentStream, extra)).Passed?
    ensures var payload := ObjectPayload(obj, key, resources, contentStream, extra);
            ValidateObject(AddChecker(AddChecker(k, checker), checker), obj, key, resources, contentStream, extra,
                           validateObject)
            == Report(ValidateObject(k, obj, key, resources, contentStream, extra, validateObject).trace
                        + [Invocation(checker, payload), Invocation(checker, payload)],
                      Absent)
  {
    var payload := ObjectPayload(obj, key, resources, contentStream, extra);
    var once := AddChecker(k, checker);
    ValidateObjectAfterAdd(k, checker, obj, key, resources, contentStream, extra, validateObject);
    ValidateObjectAfterAdd(once, checker, obj, key, resources, contentStream, extra, validateObject);
    var t := ValidateObject(k, obj, key, resources, contentStream, extra, validateObject).trace;
    assert t + [Invocation(checker, payload)] + [Invocation(checker, payload)]
        == t + [Invocation(checker, payload), Invocation(checker, payload)];
  }

  /**
   * Three checkers registered in the order 1, 2, 3, where only 2 rejects the
   * document: the dispatch asks 1, then 2, never 3, and ends with 2's error.
   */
  lemma MiddleCheckerStopsDispatch(context: int)
    ensures var k := AddChecker(AddChecker(AddChecker(New(), 1), 2), 3);
            var validateDocument := (c: int, d: int) => if c == 2 then Failed("violation") else Passed;
            ValidateDocument(k, context, validateDocument)
            == Report([Invocation(1, context), Invocation(2, context)], Present("violation"))
  {
  }
}
