# AsyncioDemo: cancellable lazy sequences, drains and IntWrapper, in Dafny

This project models the core of the AsyncioDemo library. The library exposes asynchronous
primitives to a foreign host. The model covers three parts:

- **The cancellable lazy sequences** `GetAsyncEnumerableInt` and `GetAsyncEnumerableWrapper`.
  The loop `for (i = 0; i < count; i++) { check token; if (i > 0) delay; yield i; }` becomes the
  enumerator class `Enumerator`. Its `MoveNext` resumes after the last `yield return`. It returns
  `Value(i)`, `Cancelled` or `Done`.
- **The drains** `CollectAsyncEnumerableInt` and `CollectAsyncEnumerableWrapper`. Each is a
  method that appends to a list in a loop. It returns `Some(list)` on completion and `None` on
  cancellation.
- **`IntWrapper`**: a class with a mutable `Value`. Its equality, hash and text form depend on
  the value alone.

Time and the cancellation token become plain data (module `Enumeration`):

- A token is a sequence of `Probe(atCheck, inDelay)` observations, one per element index.
  `atCheck` is what `ThrowIfCancellationRequested` sees at the top of step i. `inDelay` is
  whether the token fires while the delay before element i > 0 is pending. Past the end of the
  sequence the token is never seen fired.
- `[EnumeratorCancellation]` and `WithCancellation` link two tokens. The model represents this
  by `Linked`, which fires when either token fires.
- `Enumerate` is the reference definition of a whole enumeration. It gives the values delivered,
  the ordered `Check`/`Delay`/`Yield` events and whether the run ended cancelled. `Drained` is
  the reference definition of the drain's outcome.
- The methods are proved against these definitions. The lemmas state what the source promises
  about them.

The element type is not a type parameter with a mapping function, because a Dafny function
cannot allocate. Instead, both variants share the index state machine `Enumerator`.
`WrapperEnumerator` drives it and allocates a new `IntWrapper(i)` for each element.

In two places the model follows the code where a reader might expect otherwise:

- A negative `count` is not rejected. The loop body never runs, so the sequence is empty and
  no cancellation check occurs.
- Cancellation ends the state machine. Every later `MoveNext` answers `Done`, as the compiled
  async iterator does once its body has thrown.

## Model

| member | source | states |
|---|---|---|
| `AsyncioDemoLibrary.CreatePromiseReturningInt` | src/AsyncioDemo/AsyncioDemoLibrary.cs:20-25 | resolves to the delay it was given |
| `AsyncioDemoLibrary.CreatePromiseReturningWrapper` | src/AsyncioDemo/AsyncioDemoLibrary.cs:32-36 | resolves to a new wrapper holding the delay |
| `AsyncioDemoLibrary.GetTaskReturningInt` | src/AsyncioDemo/AsyncioDemoLibrary.cs:47-54 | resolves to the delay it was given |
| `AsyncioDemoLibrary.GetTaskReturningWrapper` | src/AsyncioDemo/AsyncioDemoLibrary.cs:61-68 | resolves to a new wrapper holding the delay |
| `AsyncioDemoLibrary.GetAsyncEnumerableInt` | src/AsyncioDemo/AsyncioDemoLibrary.cs:81-93 | returns an `AsyncSequence<int>` for the request, observing the given token; enumerated without cancellation it drains to exactly 0 .. count-1 (nothing when count <= 0) |
| `AsyncioDemoLibrary.GetAsyncEnumerableWrapper` | src/AsyncioDemo/AsyncioDemoLibrary.cs:102-114 | an `AsyncSequence<IntWrapper>` over the same indices, which its enumerator wraps one by one; it observes the given token and, uncancelled, drains to exactly 0 .. count-1; its element type keeps it out of the integer drain |
| `AsyncioDemoLibrary.Enumerator.constructor` | src/AsyncioDemo/AsyncioDemoLibrary.cs:81-84 | a new enumeration starts before element 0, having delivered nothing and done nothing |
| `AsyncioDemoLibrary.Enumerator.MoveNext` | src/AsyncioDemo/AsyncioDemoLibrary.cs:86-91 | the result for element k = number delivered so far is Done if k >= count, Cancelled if the token fires at the check or (k > 0) in the delay, else Value(k); events and delivered elements are extended accordingly; once finished it answers Done and changes nothing; each call strictly decreases the work left |
| `AsyncioDemoLibrary.WrapperEnumerator.constructor` | src/AsyncioDemo/AsyncioDemoLibrary.cs:102-105 | a new wrapper enumeration over a fresh index enumeration |
| `AsyncioDemoLibrary.WrapperEnumerator.MoveNext` | src/AsyncioDemo/AsyncioDemoLibrary.cs:107-113 | same outcome per call as the integer sequence (the element, Cancelled or Done by `StepAt`), with each element a freshly allocated wrapper whose Value is the index; the check, delay and element events it adds are exactly `StepEvents` of that call, and nothing once finished |
| `AsyncioDemoLibrary.GetAsyncEnumerator` | src/AsyncioDemo/AsyncioDemoLibrary.cs:146 | a fresh enumeration from element 0 whose loop sees the sequence's token linked with the drain's |
| `AsyncioDemoLibrary.GetAsyncWrapperEnumerator` | src/AsyncioDemo/AsyncioDemoLibrary.cs:165 | the same for the wrapper sequence |
| `AsyncioDemoLibrary.CollectAsyncEnumerableInt` | src/AsyncioDemo/AsyncioDemoLibrary.cs:141-151 | the returned outcome is exactly `Drained` of the linked token: the full list on completion, nothing on cancellation |
| `AsyncioDemoLibrary.CollectAsyncEnumerableWrapper` | src/AsyncioDemo/AsyncioDemoLibrary.cs:160-170 | returns a list exactly when `Drained` does, with one wrapper per drained element holding that element, in order |
| `Enumeration.Linked` | src/AsyncioDemo/AsyncioDemoLibrary.cs:81-84 | the linked token fires at a check or in a delay exactly when one of the two tokens does |
| `Enumeration.EnumerateIsAscendingPrefix` | src/AsyncioDemo/AsyncioDemoLibrary.cs:86-91 | whatever the token does, the values delivered are 0, 1, ... in strictly ascending order with none skipped or repeated, never count or beyond, and all of 0 .. count-1 when not cancelled |
| `Enumeration.CancelledIff` | src/AsyncioDemo/AsyncioDemoLibrary.cs:86-91 | a run ends cancelled exactly when some element still due sees the token fired at its check or in its delay |
| `Enumeration.CancelledAtFirstFiring` | src/AsyncioDemo/AsyncioDemoLibrary.cs:88-90 | if element k is the first to see the token fired, the consumer received exactly 0 .. k-1 and then Cancelled; the last event is the check or the delay where the firing was seen |
| `Enumeration.QuietRun` | src/AsyncioDemo/AsyncioDemoLibrary.cs:86-91 | without cancellation, the values are exactly 0 .. count-1 (none when count <= 0), with one check per element and count-1 delays |
| `Enumeration.CheckThenDelayThenYield` | src/AsyncioDemo/AsyncioDemoLibrary.cs:88-91 | in every run element 0 comes straight after a check with no delay, and each later element straight after a check and then one delay |
| `Enumeration.DelayThenYield` | src/AsyncioDemo/AsyncioDemoLibrary.cs:89-91 | every delay comes straight after a cancellation check, and is followed at once by its element unless the run was cancelled during that delay |
| `Enumeration.EmptyWhenCountNotPositive` | src/AsyncioDemo/AsyncioDemoLibrary.cs:86 | with count <= 0 the run is empty, performs no check and completes, even with a token fired from the start |
| `Enumeration.CancelledBeforeStart` | src/AsyncioDemo/AsyncioDemoLibrary.cs:86-88 | a token fired before the first request, with count > 0, gives one check, zero elements and Cancelled |
| `Enumeration.LateFiringIgnored` | src/AsyncioDemo/AsyncioDemoLibrary.cs:86-88 | the token's state after the last element has been delivered does not change the run |
| `Enumeration.DrainAllOrNothing` | src/AsyncioDemo/AsyncioDemoLibrary.cs:145-150 | the drain yields all of 0 .. count-1 unless some due element sees the token fired, in which case it yields nothing; never a partial list |
| `Enumeration.DrainCancelledByEither` | src/AsyncioDemo/AsyncioDemoLibrary.cs:146 | the drain over the linked token is cancelled exactly when either the sequence's token or the drain's token fires while an element is due |
| `IntWrappers.IntWrapper.constructor` | src/AsyncioDemo/IntWrapper.cs:11-14 | constructing with v gives Value == v |
| `IntWrappers.IntWrapper.SetValue` | src/AsyncioDemo/IntWrapper.cs:9 | after a set, Value, hash and text all follow the new value, and only this wrapper changes |
| `IntWrappers.IntWrapper.ToString` | src/AsyncioDemo/IntWrapper.cs:16-19 | the text is `IntWrapper(`, then the canonical decimal form of the value (no leading zeros, no `-0`), then `)`, and reads back through `ParseText` as exactly the wrapper's value |
| `IntWrappers.ToStringIsExact` | src/AsyncioDemo/IntWrapper.cs:16-19 | any text of that shape that reads as the wrapper's value is the wrapper's text, so the text is fixed uniquely |
| `IntWrappers.IntWrapper.Equals` | src/AsyncioDemo/IntWrapper.cs:21-24 | true only for a wrapper argument, and for a wrapper exactly when both print the same text, that is, hold the same value |
| `IntWrappers.IntWrapper.GetHashCode` | src/AsyncioDemo/IntWrapper.cs:26-29 | the hash is the number the wrapper's text shows, that is, its value |
| `IntWrappers.EqualsReflexive` | src/AsyncioDemo/IntWrapper.cs:21-24 | a wrapper equals itself |
| `IntWrappers.EqualsSymmetric` | src/AsyncioDemo/IntWrapper.cs:21-24 | equality is symmetric |
| `IntWrappers.EqualsTransitive` | src/AsyncioDemo/IntWrapper.cs:21-24 | equality is transitive |
| `IntWrappers.EqualsRejectsNonWrappers` | src/AsyncioDemo/IntWrapper.cs:23 | Equals is false for null and for any object that is not a wrapper |
| `IntWrappers.HashAgreesWithEquals` | src/AsyncioDemo/IntWrapper.cs:26-29 | two wrappers hash alike exactly when they are equal |
| `IntWrappers.TextAgreesWithEquals` | src/AsyncioDemo/IntWrapper.cs:16-24 | two wrappers print the same text exactly when they are equal |
| `Numerics.Decimal` | src/AsyncioDemo/IntWrapper.cs:18 | the decimal form of an integer is its canonical digits, preceded by `-` for a negative number, and reads back as that integer |
| `Numerics.CanonicalDigitsRoundTrip` | src/AsyncioDemo/IntWrapper.cs:18 | a digit string without leading zeros is the digits of the number it denotes |
| `Numerics.CanonicalDecimalIsDecimal` | src/AsyncioDemo/IntWrapper.cs:18 | a canonical text is the decimal form of the number it reads as, so no other text represents that number |
| `Numerics.DigitsRoundTrip` | src/AsyncioDemo/IntWrapper.cs:18 | the digit string of a natural number denotes that number |
| `Numerics.DecimalExamples` | src/AsyncioDemo/IntWrapper.cs:18 | 0, 42 and -7 render as "0", "42" and "-7" |

## Left out

- Elapsed time and delay durations are not modelled. A delay appears only as a point where the
  token may be seen fired, so `delayMilliseconds` is carried but never used.
- The runtime's delay primitive validates its argument, and that validation is not part of this
  model. A negative delay therefore neither faults nor blocks here, in the echo producers or in the
  sequences.
- `CreateCancellationTokenSource` (src/AsyncioDemo/AsyncioDemoLibrary.cs:125-132) is left out. It
  only builds a runtime token, optionally with a timer. The model takes the token as a sequence of
  observations instead.
- `Task.Run` scheduling, `TaskCompletionSource` and the async state machines of the echo
  producers are left out. These producers are modelled as returning their value directly.
- The Python.NET host bridge is left out.
- Faults other than cancellation are not modelled. The code raises none of its own.
- The two runtime exception types that signal cancellation are merged into the single `Cancelled`
  outcome.
- Disposal of the enumerator after `await foreach` is not modelled.
- `IntWrappers.IntWrapper.Equals`: subclasses of `IntWrapper` are not modelled. The argument is
  null, a wrapper or some other object.
- `IntWrappers.IntWrapper.GetHashCode` is the identity on the 32-bit value, which is what the
  runtime's integer hash returns.
- `Numerics.Decimal` is the invariant-culture form with a `-` sign. Culture-specific negative
  signs are not modelled.
- `AsyncioDemoLibrary.CollectAsyncEnumerableInt` and `AsyncioDemoLibrary.CollectAsyncEnumerableWrapper`
  accept any asynchronous sequence in the source. The model drains only this library's own
  sequences (`AsyncSequence<int>` and `AsyncSequence<IntWrapper>`), so the behaviour of a drain over any other source is not captured.
- `AsyncioDemoLibrary.CollectAsyncEnumerableWrapper` does not state that the returned wrappers are
  new objects. `WrapperEnumerator.MoveNext` states it for each one.
