/**
 * AsyncioDemoLibrary: value-echo producers, the two cancellable lazy
 * sequences (raw integers and IntWrapper objects) and the drains that
 * collect them into a list.
 *
 * An async iterator method is compiled into an enumerator object whose
 * MoveNext runs the loop body up to the next `yield return` and suspends
 * there; `Enumerator` is that object. Delays and the cancellation token
 * are modelled as described in module Enumeration.
 */
module AsyncioDemoLibrary {
  import opened Wrappers
  import opened Numerics
  import opened Enumeration
  import IntWrappers

  // ---------------------------------------------------------------------------
  // Value-echo producers: each resolves, after its delay, to the delay it was given.

  method CreatePromiseReturningInt(delayMilliseconds: int32) returns (r: int32)
    ensures r == delayMilliseconds
  {
    r := delayMilliseconds;
  }

  method CreatePromiseReturningWrapper(delayMilliseconds: int32) returns (w: IntWrappers.IntWrapper)
    ensures fresh(w) && w.Value == delayMilliseconds
  {
    w := new IntWrappers.IntWrapper(delayMilliseconds);
  }

  method GetTaskReturningInt(delayMilliseconds: int32) returns (r: int32)
    ensures r == delayMilliseconds
  {
    r := delayMilliseconds;
  }

  method GetTaskReturningWrapper(delayMilliseconds: int32) returns (w: IntWrappers.IntWrapper)
    ensures fresh(w) && w.Value == delayMilliseconds
  {
    w := new IntWrappers.IntWrapper(delayMilliseconds);
  }

  // ---------------------------------------------------------------------------
  // The lazy sequences

  /** What GetAsyncEnumerableInt / GetAsyncEnumerableWrapper return: nothing runs until it is
      enumerated, and every enumeration starts afresh from element 0. */
  datatype AsyncSequence<T> = AsyncSequence(count: int32, delayMilliseconds: int32, token: seq<Probe>)

  /** GetAsyncEnumerableInt: a sequence that, enumerated without cancellation, yields 0 .. count-1
      (nothing when count <= 0), and observes the given token. */
  function GetAsyncEnumerableInt(count: int32, delayMilliseconds: int32, cancellationToken: seq<Probe>): (q: AsyncSequence<int>)
    ensures q.count == count && q.token == cancellationToken
    ensures Drained(q.count as int, []) == Some(Range(0, count as int))
  {
    DrainAllOrNothing(count as int, []);
    AsyncSequence(count, delayMilliseconds, cancellationToken)
  }

  /** GetAsyncEnumerableWrapper: the same sequence of indices; its enumerator wraps each one. */
  function GetAsyncEnumerableWrapper(count: int32, delayMilliseconds: int32, cancellationToken: seq<Probe>)
    : (q: AsyncSequence<IntWrappers.IntWrapper>)
    ensures q.count == count && q.token == cancellationToken
    ensures Drained(q.count as int, []) == Some(Range(0, count as int))
  {
    DrainAllOrNothing(count as int, []);
    AsyncSequence(count, delayMilliseconds, cancellationToken)
  }

  /** Where the enumerator is suspended: before the loop, at the `yield return`, or past the end. */
  datatype Position = Start | Suspended | Finished

  /** The state machine of GetAsyncEnumerableInt; element i is the integer i. */
  class Enumerator {
    const count: int32
    /** The token the loop observes: the sequence's own, linked with the enumeration's. */
    const token: seq<Probe>
    var i: int
    var pc: Position
    /** The elements delivered so far. */
    ghost var yielded: seq<int>
    /** The checks, delays and productions so far. */
    ghost var events: seq<Event>

    ghost predicate Valid()
      reads this
    {
      && (pc == Start ==> i == 0 && yielded == [])
      && (pc == Suspended ==> 0 <= i < count as int && yielded == Range(0, i + 1))
      && (pc == Finished ==> yielded == Range(0, |yielded|) && |yielded| <= Max(count as int, 0))
    }

    /** How many more calls of MoveNext can change anything. */
    ghost function Remaining(): nat
      reads this
      requires Valid()
    {
      if pc == Finished then 0 else Max(count as int, 0) - |yielded| + 1
    }

    constructor (count: int32, token: seq<Probe>)
      ensures Valid()
      ensures this.count == count && this.token == token
      ensures pc == Start && yielded == [] && events == []
    {
      this.count := count;
      this.token := token;
      i := 0;
      pc := Start;
      yielded := [];
      events := [];
    }

    /** Runs the loop body for the next element: the cancellation check, the delay for every
        element but the first, then the element. Once finished, every call answers Done. */
    method MoveNext() returns (s: Step<int>)
      requires Valid()
      modifies this
      ensures Valid() && pc != Start
      ensures old(pc) == Finished ==> s == Done && pc == Finished && yielded == old(yielded) && events == old(events)
      ensures old(pc) != Finished ==>
        && s == StepAt(count as int, |old(yielded)|, ProbeAt(token, |old(yielded)|))
        && events == old(events) + StepEvents(count as int, |old(yielded)|, ProbeAt(token, |old(yielded)|))
        && Remaining() < old(Remaining())
      ensures yielded == old(yielded) + (if s.Value? then [s.x] else [])
      ensures s.Value? <==> pc == Suspended
    {
      if pc == Finished {
        return Done;
      }
      if pc == Start {
        i := 0;
      } else {
        i := i + 1;
      }
      if !(i < count as int) {
        pc := Finished;
        return Done;
      }
      var p := ProbeAt(token, i);
      events := events + [Check];
      if p.atCheck {
        pc := Finished;
        return Cancelled;
      }
      if i > 0 {
        events := events + [Delay];
        if p.inDelay {
          pc := Finished;
          return Cancelled;
        }
      }
      events := events + [Yield(i)];
      yielded := yielded + [i];
      pc := Suspended;
      s := Value(i);
    }
  }

  /** The state machine of GetAsyncEnumerableWrapper: the same loop, each element a new IntWrapper(i). */
  class WrapperEnumerator {
    const inner: Enumerator

    ghost predicate Valid()
      reads this, inner
    {
      inner.Valid()
    }

    constructor (count: int32, token: seq<Probe>)
      ensures Valid() && fresh(inner)
      ensures inner.count == count && inner.token == token
      ensures inner.pc == Start && inner.yielded == [] && inner.events == []
    {
      inner := new Enumerator(count, token);
    }

    method MoveNext() returns (s: Step<IntWrappers.IntWrapper>)
      requires Valid()
      modifies inner
      ensures Valid() && inner.pc != Start
      ensures old(inner.pc) == Finished ==> s == Done && inner.pc == Finished && inner.yielded == old(inner.yielded)
      ensures old(inner.pc) != Finished ==>
        match StepAt(inner.count as int, |old(inner.yielded)|, ProbeAt(inner.token, |old(inner.yielded)|))
        case Value(k) => s.Value? && s.x.Value as int == k
        case Cancelled => s.Cancelled?
        case Done => s.Done?
      ensures old(inner.pc) != Finished ==> inner.Remaining() < old(inner.Remaining())
      ensures inner.events == old(inner.events) +
        (if old(inner.pc) == Finished then []
         else StepEvents(inner.count as int, |old(inner.yielded)|, ProbeAt(inner.token, |old(inner.yielded)|)))
      ensures s.Value? ==> fresh(s.x)
      ensures inner.yielded == old(inner.yielded) + (if s.Value? then [s.x.Value as int] else [])
      ensures s.Value? <==> inner.pc == Suspended
    {
      var t := inner.MoveNext();
      match t
      case Value(k) =>
        var w := new IntWrappers.IntWrapper(k as int32);
        s := Value(w);
      case Cancelled =>
        s := Cancelled;
      case Done =>
        s := Done;
    }
  }

  /** `source.WithCancellation(cancellationToken).GetAsyncEnumerator()`: a fresh enumeration whose loop
      observes the sequence's token linked with the given one. */
  method GetAsyncEnumerator(source: AsyncSequence<int>, cancellationToken: seq<Probe>) returns (e: Enumerator)
    ensures fresh(e) && e.Valid() && e.pc == Start && e.yielded == []
    ensures e.count == source.count && e.token == Linked(source.token, cancellationToken)
  {
    e := new Enumerator(source.count, Linked(source.token, cancellationToken));
  }

  method GetAsyncWrapperEnumerator(source: AsyncSequence<IntWrappers.IntWrapper>, cancellationToken: seq<Probe>) returns (e: WrapperEnumerator)
    ensures fresh(e) && fresh(e.inner) && e.Valid() && e.inner.pc == Start && e.inner.yielded == []
    ensures e.inner.count == source.count && e.inner.token == Linked(source.token, cancellationToken)
  {
    e := new WrapperEnumerator(source.count, Linked(source.token, cancellationToken));
  }

  // ---------------------------------------------------------------------------
  // The drains

  /** Appends every element to a list until the enumeration ends; the list is returned only when
      the enumeration completes, and a cancellation by either token returns nothing. */
  method CollectAsyncEnumerableInt(source: AsyncSequence<int>, cancellationToken: seq<Probe>) returns (r: Option<seq<int>>)
    ensures r == Drained(source.count as int, Linked(source.token, cancellationToken))
  {
    var e := GetAsyncEnumerator(source, cancellationToken);
    ghost var count, token := source.count as int, e.token;
    var results: seq<int> := [];
    var s := e.MoveNext();
    while s.Value?
      invariant e.Valid() && e.count as int == count && e.token == token
      invariant s == StepAt(count, |results|, ProbeAt(token, |results|))
      invariant e.yielded == results + (if s.Value? then [s.x] else [])
      invariant s.Value? <==> e.pc == Suspended
      invariant e.pc != Start
      invariant DrainedSoFar(count, token, results)
      decreases e.Remaining()
    {
      DrainedSoFarAppend(count, token, results);
      results := results + [s.x];
      s := e.MoveNext();
    }
    DrainedSoFarEnd(count, token, results);
    r := if s.Cancelled? then None else Some(results);
  }

  /** The same drain over the wrapper sequence: on completion, one wrapper per element, holding
      0, 1, ..., in order. */
  method CollectAsyncEnumerableWrapper(source: AsyncSequence<IntWrappers.IntWrapper>, cancellationToken: seq<Probe>)
    returns (r: Option<seq<IntWrappers.IntWrapper>>)
    ensures var d := Drained(source.count as int, Linked(source.token, cancellationToken));
      && r.Some? == d.Some?
      && (r.Some? ==> |r.value| == |d.value| && forall k :: 0 <= k < |r.value| ==> r.value[k].Value as int == d.value[k])
  {
    var e := GetAsyncWrapperEnumerator(source, cancellationToken);
    ghost var count, token := source.count as int, e.inner.token;
    var results: seq<IntWrappers.IntWrapper> := [];
    ghost var values: seq<int> := [];
    var s := e.MoveNext();
    while s.Value?
      invariant e.Valid() && e.inner.count as int == count && e.inner.token == token
      invariant |results| == |values| && forall k :: 0 <= k < |results| ==> results[k].Value as int == values[k]
      invariant match StepAt(count, |values|, ProbeAt(token, |values|))
        case Value(x) => s.Value? && s.x.Value as int == x
        case Cancelled => s.Cancelled?
        case Done => s.Done?
      invariant |e.inner.yielded| == |values| + (if s.Value? then 1 else 0)
      invariant s.Value? <==> e.inner.pc == Suspended
      invariant e.inner.pc != Start
      invariant DrainedSoFar(count, token, values)
      decreases e.inner.Remaining()
    {
      DrainedSoFarAppend(count, token, values);
      results := results + [s.x];
      values := values + [s.x.Value as int];
      s := e.MoveNext();
    }
    DrainedSoFarEnd(count, token, values);
    r := if s.Cancelled? then None else Some(results);
  }
}
