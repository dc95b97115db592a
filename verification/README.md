# Validation container

A Dafny model of iText's `ValidationContainer`: the object a PDF document
uses to hold a list of pluggable conformance checkers (`IValidationChecker`)
and to hand every checkpoint to all of them. The container keeps its
checkers in an ordered list that only grows. It answers "is this checker
registered?". It has two dispatch operations:

- the document-level `validate(context)` asks each checker's `validateDocument`;
- the object-level `validate(obj, key, resources, contentStream, extra)` asks
  each checker's `validateObject`.

Both walk the list in registration order. Neither catches anything, so the
first checker that throws ends the dispatch with its own exception.

The model is functional:

- `checker_results.dfy` (`CheckerResults`): `Maybe` (a nullable reference)
  and `CheckResult` (a checker's verdict: `Passed`, or `Failed` carrying the
  exception).
- `dispatcher.dfy` (`Dispatcher`): the fan-out shared by both overloads.
  A checker is an opaque handle type `C`. What it does is a pure verdict
  function `(C, A) -> CheckResult<E>`. A dispatch returns a `Report`: the
  `Invocation`s made (checker plus the argument it received), in order,
  and the error that ended it, if any. `FanOut` is the reference definition
  and `Dispatch` is the Java `for` loop, proved to compute it.
- `validation_container.dfy` (`Container`): the container as a value holding
  `seq<C>`, with `New`, `AddChecker`, `ContainsChecker`, `ValidateDocument`,
  `ValidateObject`, and lemmas linking registration, membership and dispatch.
  Membership is Dafny equality on `C`. For Java references without an
  overridden `equals`, this is identity.
- `session.dfy` (`Session`): any sequence of public calls on one container.
  It proves that the list is append-only and that only `addChecker`
  changes it. That a dispatch or a membership query leaves the list alone
  holds by construction: like the Java methods, which never assign the
  list, `ValidateDocument`, `ValidateObject` and `ContainsChecker` return no
  container, so the one passed on is the one they were given.

## Model

| member | source | states |
|---|---|---|
| Dispatcher.FanOut | kernel/src/main/java/com/itextpdf/kernel/utils/ValidationContainer.java:59-61 | The dispatch never invokes more checkers than are registered. A dispatch that returned normally invoked every checker, and one that failed invoked at least one. |
| Dispatcher.FanOutShape | kernel/src/main/java/com/itextpdf/kernel/utils/ValidationContainer.java:59-61 | The checkers invoked are a prefix of the list, in list order, each invoked once with the unchanged argument. Every invoked checker passed except the last one when the dispatch failed, and the reported error is exactly that checker's error. |
| Dispatcher.Dispatch | kernel/src/main/java/com/itextpdf/kernel/utils/ValidationContainer.java:59-61 | The imperative for-each loop, which returns at the first failing checker, yields exactly the trace and error of the reference fan-out. |
| Dispatcher.EmptyFanOut | kernel/src/main/java/com/itextpdf/kernel/utils/ValidationContainer.java:58-62 | Dispatching over no checkers invokes nothing and returns normally. |
| Dispatcher.FanOutSucceeds | kernel/src/main/java/com/itextpdf/kernel/utils/ValidationContainer.java:58-62 | A dispatch returns normally if and only if every checker accepts. In that case each checker was invoked exactly once, in order, with the same argument. |
| Dispatcher.FanOutFailsFast | kernel/src/main/java/com/itextpdf/kernel/utils/ValidationContainer.java:59-61 | If position k is the first checker that fails, exactly positions 0..k are invoked and the dispatch yields that checker's error, not wrapped or aggregated. |
| Dispatcher.FanOutFailurePrefix | kernel/src/main/java/com/itextpdf/kernel/utils/ValidationContainer.java:59-61 | In a failed dispatch, every checker invoked before the failing last one accepted. |
| Dispatcher.FanOutConcat | kernel/src/main/java/com/itextpdf/kernel/utils/ValidationContainer.java:59-61 | Dispatching over xs + ys equals dispatching over xs and then, only if that returned normally, over ys. |
| Container.New | kernel/src/main/java/com/itextpdf/kernel/utils/ValidationContainer.java:48-50 | A freshly constructed container's list is empty. |
| Container.AddChecker | kernel/src/main/java/com/itextpdf/kernel/utils/ValidationContainer.java:86-88 | The new list is one longer. Every old entry keeps its position and the new checker is last. |
| Container.IndexOf | kernel/src/main/java/com/itextpdf/kernel/utils/ValidationContainer.java:98-100 | The forward scan that the list's `contains` performs at line 99. It gives -1 when no entry from the start position equals the checker. Otherwise it gives the first position that does, and no earlier entry matches. |
| Container.ContainsChecker | kernel/src/main/java/com/itextpdf/kernel/utils/ValidationContainer.java:98-100 | The answer is true if and only if some entry of the list equals the checker. |
| Container.ValidateDocument | kernel/src/main/java/com/itextpdf/kernel/utils/ValidationContainer.java:58-62 | The checkers invoked are a prefix of the registered list, in registration order, each receiving the very context passed in. The dispatch returns normally if and only if every registered checker accepts, and then it invoked all of them. A failure carries the last invoked checker's own error, and every checker invoked before it accepted. |
| Container.ValidateObject | kernel/src/main/java/com/itextpdf/kernel/utils/ValidationContainer.java:74-79 | The checkers invoked are a prefix of the registered list, in registration order, each receiving the five values unchanged, including an absent resources or content stream. The dispatch returns normally if and only if every registered checker accepts, and then it invoked all of them. A failure carries the last invoked checker's own error, and every checker invoked before it accepted. |
| Container.NewIsEmpty | kernel/src/main/java/com/itextpdf/kernel/utils/ValidationContainer.java:48-50 | A new container contains no checker, and both validate overloads invoke nothing and return normally. |
| Container.ContainsAfterAdd | kernel/src/main/java/com/itextpdf/kernel/utils/ValidationContainer.java:86-100 | After addChecker(c), a query for d is true if and only if d is c or d was already present. |
| Container.AddDoesNotDeduplicate | kernel/src/main/java/com/itextpdf/kernel/utils/ValidationContainer.java:86-88 | Adding a checker raises the number of its entries by one, even if it is already present. |
| Container.ValidateDocumentAfterAdd | kernel/src/main/java/com/itextpdf/kernel/utils/ValidationContainer.java:58-88 | After addChecker(c), document-level dispatch is the old dispatch followed by one call to c with the same context, and that call happens only if the old dispatch returned normally. |
| Container.ValidateObjectAfterAdd | kernel/src/main/java/com/itextpdf/kernel/utils/ValidationContainer.java:74-88 | After addChecker(c), object-level dispatch is the old dispatch followed by one call to c with the same five values, and that call happens only if the old dispatch returned normally. |
| Container.DuplicateIsAskedTwice | kernel/src/main/java/com/itextpdf/kernel/utils/ValidationContainer.java:58-88 | When a checker is appended twice in a row, every earlier checker accepts and the checker itself accepts, the document-level dispatch invokes it twice. When it rejects, fail-fast stops at its first entry. A duplicate placed elsewhere in the list is covered by `ValidateDocument`, whose trace on success is every entry in order. |
| Container.ObjectDuplicateIsAskedTwice | kernel/src/main/java/com/itextpdf/kernel/utils/ValidationContainer.java:74-88 | When a checker is appended twice in a row, every earlier checker accepts and the checker itself accepts, the object-level dispatch invokes it twice, with the same five values each time. |
| Container.MiddleCheckerStopsDispatch | kernel/src/main/java/com/itextpdf/kernel/utils/ValidationContainer.java:58-62 | Checkers 1, 2, 3 are registered and only 2 fails. The dispatch invokes 1 then 2, never 3, and surfaces 2's error. |
| Session.Step | kernel/src/main/java/com/itextpdf/kernel/utils/ValidationContainer.java:40-100 | A membership reply is true exactly when the checker is in the list. A dispatch reply returns normally if and only if every registered checker accepts, and then it invoked them all in order. Only a registration changes the container, by appending one entry. |
| Session.RunWithoutRegistrations | kernel/src/main/java/com/itextpdf/kernel/utils/ValidationContainer.java:58-79 | A sequence of calls without any addChecker leaves the container exactly as it was, whatever the queries and dispatches return. |
| Session.Run | kernel/src/main/java/com/itextpdf/kernel/utils/ValidationContainer.java:40-100 | A sequence of calls on one container yields exactly one reply per call. This is a length fact only: what the replies and the final list are is stated by `Session.RunReplies` and `Session.RunAppendsRegistrations`. |
| Session.RunAppendsRegistrations | kernel/src/main/java/com/itextpdf/kernel/utils/ValidationContainer.java:40-100 | After any sequence of calls, the list is the starting list followed by the registered checkers in registration order. Nothing is removed or reordered. |
| Session.RunReplies | kernel/src/main/java/com/itextpdf/kernel/utils/ValidationContainer.java:58-100 | Each reply is computed against the list as the earlier registrations left it. |
| Session.ContainsIsStable | kernel/src/main/java/com/itextpdf/kernel/utils/ValidationContainer.java:86-100 | Once a membership query is true, it stays true whatever calls follow. |

## Left out

- What concrete checkers validate, and the meaning of `ValidationContext`, `IsoKey`, `PdfResources` and `PdfStream`. They are type parameters the container only forwards.
- Stateful checkers. A checker's verdict is a pure function of the checker and its argument, so a checker whose answer depends on earlier calls is not modelled.
- Java exceptions as control flow. A thrown exception is the `Failed` verdict, and the dispatch result carries it. An unchecked error and a conformance violation are the same to the container, and the model does not distinguish them either.
- Null checkers. `addChecker(null)` would store a null that the next dispatch dereferences. The model's handles are never null.
- Overridden `equals` on checkers. Membership uses Dafny equality on the handle type, which is reference identity for Java checkers that do not override `equals`.
- Thread safety, and `addChecker` during a dispatch (a `ConcurrentModificationException` in the source). The class does not address concurrency.
