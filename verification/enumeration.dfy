/**
 * The observable behaviour of the cancellable lazy sequence, as values.
 *
 * Time and the cancellation token are replaced by data: for every element
 * index i the token is seen once at the check that opens the step
 * (`atCheck`) and, for i > 0, once more while the delay before element i
 * is pending (`inDelay`). A token is a sequence of such observations,
 * indexed by element; past its end the token is never seen fired.
 */
module Enumeration {
  import opened Wrappers

  datatype Probe = Probe(atCheck: bool, inDelay: bool)

  const Quiet: Probe := Probe(false, false)

  /** What the token shows while element i is produced. */
  function ProbeAt(token: seq<Probe>, i: int): Probe {
    if 0 <= i < |token| then token[i] else Quiet
  }

  /** The linked token of an enumeration given one token at creation and one at enumeration:
      it is seen fired whenever either of them is. */
  function Linked(a: seq<Probe>, b: seq<Probe>): (t: seq<Probe>)
    ensures forall i :: ProbeAt(t, i).atCheck == (ProbeAt(a, i).atCheck || ProbeAt(b, i).atCheck)
    ensures forall i :: ProbeAt(t, i).inDelay == (ProbeAt(a, i).inDelay || ProbeAt(b, i).inDelay)
  {
    seq(if |a| < |b| then |b| else |a|,
        i => Probe(ProbeAt(a, i).atCheck || ProbeAt(b, i).atCheck, ProbeAt(a, i).inDelay || ProbeAt(b, i).inDelay))
  }

  /** Element i is cancelled when the token is fired at its check or, past element 0, during its delay. */
  predicate Cancels(i: int, p: Probe) {
    p.atCheck || (i > 0 && p.inDelay)
  }

  /** The tagged result of one request for the next element. */
  datatype Step<T> = Value(x: T) | Cancelled | Done

  /** What a step does, in order: the cancellation check, the delay, the production of an element. */
  datatype Event = Check | Delay | Yield(x: int)

  /** The result of requesting element i of a sequence of `count` elements. */
  function StepAt(count: int, i: int, p: Probe): Step<int> {
    if count <= i then Done
    else if Cancels(i, p) then Cancelled
    else Value(i)
  }

  /** The events of requesting element i: nothing once the counter reaches `count`,
      otherwise the check, then the delay for i > 0, then the element, each only if not cancelled before. */
  function StepEvents(count: int, i: int, p: Probe): seq<Event> {
    if count <= i then []
    else if p.atCheck then [Check]
    else if i == 0 then [Check, Yield(0)]
    else if p.inDelay then [Check, Delay]
    else [Check, Delay, Yield(i)]
  }

  /** A whole enumeration: the elements delivered, the events in order, and whether it ended cancelled. */
  datatype Run = Run(values: seq<int>, events: seq<Event>, cancelled: bool)

  /** The enumeration that starts by requesting element i and goes on until Done or Cancelled. */
  function Enumerate(count: int, i: nat, token: seq<Probe>): Run
    decreases count - i
  {
    var p := ProbeAt(token, i);
    match StepAt(count, i, p)
    case Done => Run([], StepEvents(count, i, p), false)
    case Cancelled => Run([], StepEvents(count, i, p), true)
    case Value(x) =>
      var rest := Enumerate(count, i + 1, token);
      Run([x] + rest.values, StepEvents(count, i, p) + rest.events, rest.cancelled)
  }

  /** What draining the sequence returns: every element when it completes, nothing when cancelled. */
  function Drained(count: int, token: seq<Probe>): Option<seq<int>> {
    var r := Enumerate(count, 0, token);
    if r.cancelled then None else Some(r.values)
  }

  function Max(a: int, b: int): int {
    if a < b then b else a
  }

  /** The integers lo, lo + 1, ..., hi - 1. */
  function Range(lo: int, hi: int): (r: seq<int>)
    decreases hi - lo
    ensures |r| == Max(hi - lo, 0)
    ensures forall k :: 0 <= k < |r| ==> r[k] == lo + k
  {
    if hi <= lo then [] else [lo] + Range(lo + 1, hi)
  }

  /** The number of delays among some events. */
  function Delays(events: seq<Event>): nat {
    if events == [] then 0 else (if events[0] == Delay then 1 else 0) + Delays(events[1..])
  }

  function Checks(events: seq<Event>): nat {
    if events == [] then 0 else (if events[0] == Check then 1 else 0) + Checks(events[1..])
  }

  lemma {:induction false} CountsOfConcat(a: seq<Event>, b: seq<Event>)
    ensures Delays(a + b) == Delays(a) + Delays(b)
    ensures Checks(a + b) == Checks(a) + Checks(b)
  {
    if a == [] {
      assert a + b == b;
    } else {
      assert (a + b)[0] == a[0];
      assert (a + b)[1..] == a[1..] + b;
      CountsOfConcat(a[1..], b);
      assert Delays(a + b) == (if a[0] == Delay then 1 else 0) + Delays(a[1..] + b);
    }
  }

  /** A drain that has appended `taken` so far and will still append what the enumeration from
      element |taken| on delivers. */
  ghost predicate DrainedSoFar(count: int, token: seq<Probe>, taken: seq<int>) {
    && Enumerate(count, 0, token).values == taken + Enumerate(count, |taken|, token).values
    && Enumerate(count, 0, token).cancelled == Enumerate(count, |taken|, token).cancelled
  }

  /** Appending the element just delivered keeps the drain on track. */
  lemma DrainedSoFarAppend(count: int, token: seq<Probe>, taken: seq<int>)
    requires DrainedSoFar(count, token, taken)
    requires StepAt(count, |taken|, ProbeAt(token, |taken|)).Value?
    ensures DrainedSoFar(count, token, taken + [StepAt(count, |taken|, ProbeAt(token, |taken|)).x])
  {
  }

  /** When the enumeration ends, the drain's outcome is the list so far, or nothing if cancelled. */
  lemma DrainedSoFarEnd(count: int, token: seq<Probe>, taken: seq<int>)
    requires DrainedSoFar(count, token, taken)
    requires !StepAt(count, |taken|, ProbeAt(token, |taken|)).Value?
    ensures Drained(count, token) ==
      if StepAt(count, |taken|, ProbeAt(token, |taken|)).Cancelled? then None else Some(taken)
  {
    assert taken + [] == taken;
  }

  // ---------------------------------------------------------------------------
  // Order and number of the elements

  /** Whatever the token does, the elements delivered are i, i + 1, ... in ascending order, never past
      count - 1, and all of them up to count - 1 unless the run is cancelled. */
  lemma {:induction false} EnumerateIsAscendingPrefix(count: int, i: nat, token: seq<Probe>)
    ensures var r := Enumerate(count, i, token);
      && r.values == Range(i, i + |r.values|)
      && i + |r.values| <= Max(count, i)
      && (!r.cancelled ==> i + |r.values| == Max(count, i))
    decreases count - i
  {
    if i < count && !Cancels(i, ProbeAt(token, i)) {
      EnumerateIsAscendingPrefix(count, i + 1, token);
    }
  }

  /** The run ends cancelled exactly when some element still due sees the token fired. */
  lemma {:induction false} CancelledIff(count: int, i: nat, token: seq<Probe>)
    ensures Enumerate(count, i, token).cancelled <==> exists k :: i <= k < count && Cancels(k, ProbeAt(token, k))
    decreases count - i
  {
    if i < count && !Cancels(i, ProbeAt(token, i)) {
      CancelledIff(count, i + 1, token);
      if exists k :: i <= k < count && Cancels(k, ProbeAt(token, k)) {
        var k :| i <= k < count && Cancels(k, ProbeAt(token, k));
        assert i + 1 <= k;
      }
    }
  }

  /** If element k is the first to see the token fired, the consumer has received exactly i .. k - 1,
      then Cancelled; the last event is the check or the delay at which cancellation was seen. */
  lemma {:induction false} CancelledAtFirstFiring(count: int, i: nat, token: seq<Probe>, k: nat)
    requires i <= k < count && Cancels(k, ProbeAt(token, k))
    requires forall j :: i <= j < k ==> !Cancels(j, ProbeAt(token, j))
    ensures var r := Enumerate(count, i, token);
      && r.values == Range(i, k)
      && r.cancelled
      && |r.events| > 0
      && r.events[|r.events| - 1] == (if ProbeAt(token, k).atCheck then Check else Delay)
    decreases k - i
  {
    if i < k {
      CancelledAtFirstFiring(count, i + 1, token, k);
    }
  }

  /** With no firing while elements are due, the run delivers i .. count - 1 and completes, after
      one check per element and one delay per element past element 0. */
  lemma {:induction false} QuietRun(count: int, i: nat, token: seq<Probe>)
    requires forall j :: i <= j < count ==> !Cancels(j, ProbeAt(token, j))
    ensures var r := Enumerate(count, i, token);
      && r.values == Range(i, count)
      && !r.cancelled
      && Checks(r.events) == Max(count - i, 0)
      && Delays(r.events) == (if count <= i then 0 else if i == 0 then count - 1 else count - i)
    decreases count - i
  {
    if i < count {
      QuietRun(count, i + 1, token);
      var p := ProbeAt(token, i);
      CountsOfConcat(StepEvents(count, i, p), Enumerate(count, i + 1, token).events);
      StepCounts(count, i, p);
    }
  }

  lemma StepCounts(count: int, i: nat, p: Probe)
    requires i < count && !Cancels(i, p)
    ensures Checks(StepEvents(count, i, p)) == 1
    ensures Delays(StepEvents(count, i, p)) == if i == 0 then 0 else 1
  {
    if i == 0 {
      assert StepEvents(count, i, p) == [Check] + [Yield(0)];
      assert [Yield(0)][1..] == [];
      CountsOfConcat([Check], [Yield(0)]);
    } else {
      assert StepEvents(count, i, p) == [Check] + ([Delay] + [Yield(i)]);
      assert [Yield(i)][1..] == [];
      CountsOfConcat([Delay], [Yield(i)]);
      CountsOfConcat([Check], [Delay] + [Yield(i)]);
    }
  }

  /** Element 0 comes straight after a check, every later element straight after a check and then
      one delay. */
  predicate ChecksAndDelaysPrecedeYields(ev: seq<Event>) {
    forall j {:trigger ev[j]} :: 0 <= j < |ev| && ev[j].Yield? ==>
      if ev[j].x == 0 then 1 <= j && ev[j - 1] == Check
      else 2 <= j && ev[j - 2] == Check && ev[j - 1] == Delay
  }

  /** Every delay comes straight after a check and is followed at once by an element, or is the
      last event. */
  predicate DelaysLeadToYields(ev: seq<Event>) {
    forall j {:trigger ev[j]} :: 0 <= j < |ev| && ev[j] == Delay ==>
      1 <= j && ev[j - 1] == Check && (j + 1 == |ev| || ev[j + 1].Yield?)
  }

  /** In every run the check comes first and no element is produced before it; no delay precedes
      element 0 and exactly one precedes each later element. */
  lemma {:induction false} CheckThenDelayThenYield(count: int, i: nat, token: seq<Probe>)
    ensures ChecksAndDelaysPrecedeYields(Enumerate(count, i, token).events)
    decreases count - i
  {
    var p := ProbeAt(token, i);
    if i < count && !Cancels(i, p) {
      CheckThenDelayThenYield(count, i + 1, token);
      var head, tail := StepEvents(count, i, p), Enumerate(count, i + 1, token).events;
      var ev := head + tail;
      assert Enumerate(count, i, token).events == ev;
      assert head == if i == 0 then [Check, Yield(0)] else [Check, Delay, Yield(i)];
      forall j {:trigger ev[j]} | 0 <= j < |ev| && ev[j].Yield?
        ensures if ev[j].x == 0 then 1 <= j && ev[j - 1] == Check
                else 2 <= j && ev[j - 2] == Check && ev[j - 1] == Delay
      {
        if j < |head| {
          assert ev[j] == head[j] && ev[j - 1] == head[j - 1];
          if i > 0 {
            assert ev[j - 2] == head[j - 2];
          }
        } else {
          var t := j - |head|;
          assert ev[j] == tail[t];
          if tail[t].x == 0 {
            assert ev[j - 1] == tail[t - 1];
          } else {
            assert ev[j - 1] == tail[t - 1] && ev[j - 2] == tail[t - 2];
          }
        }
      }
    }
  }

  /** Every delay is followed at once by its element, unless the run was cancelled during that delay. */
  lemma {:induction false} DelayThenYield(count: int, i: nat, token: seq<Probe>)
    ensures DelaysLeadToYields(Enumerate(count, i, token).events)
    ensures var ev := Enumerate(count, i, token).events;
      |ev| > 0 && ev[|ev| - 1] == Delay ==> Enumerate(count, i, token).cancelled
    decreases count - i
  {
    var p := ProbeAt(token, i);
    if i < count && !Cancels(i, p) {
      DelayThenYield(count, i + 1, token);
      var head, tail := StepEvents(count, i, p), Enumerate(count, i + 1, token).events;
      var ev := head + tail;
      assert Enumerate(count, i, token).events == ev;
      assert head == if i == 0 then [Check, Yield(0)] else [Check, Delay, Yield(i)];
      forall j {:trigger ev[j]} | 0 <= j < |ev| && ev[j] == Delay
        ensures 1 <= j && ev[j - 1] == Check && (j + 1 == |ev| || ev[j + 1].Yield?)
      {
        if j < |head| {
          assert ev[j] == head[j] && ev[j + 1] == head[j + 1] && ev[j - 1] == head[j - 1];
        } else {
          var t := j - |head|;
          assert ev[j] == tail[t] && ev[j - 1] == tail[t - 1];
          if t + 1 < |tail| {
            assert ev[j + 1] == tail[t + 1];
          }
        }
      }
      if |tail| > 0 {
        assert ev[|ev| - 1] == tail[|tail| - 1];
      }
    }
  }

  // ---------------------------------------------------------------------------
  // Edge cases of the token and of the count

  /** With count <= 0 the loop body never runs: no check, nothing delivered, completion even
      with a token fired from the start. */
  lemma EmptyWhenCountNotPositive(count: int, token: seq<Probe>)
    requires count <= 0
    ensures Enumerate(count, 0, token) == Run([], [], false)
  {
  }

  /** A token already fired before the first request cancels at the first check, before any element. */
  lemma CancelledBeforeStart(count: int, token: seq<Probe>)
    requires 0 < count && ProbeAt(token, 0).atCheck
    ensures Enumerate(count, 0, token) == Run([], [Check], true)
  {
  }

  /** Only what the token shows while elements 0 .. count - 1 are due matters: firing after the last
      element has been delivered does not change the run. */
  lemma {:induction false} LateFiringIgnored(count: int, i: nat, t: seq<Probe>, u: seq<Probe>)
    requires forall j :: i <= j < count ==> ProbeAt(t, j) == ProbeAt(u, j)
    ensures Enumerate(count, i, t) == Enumerate(count, i, u)
    decreases count - i
  {
    if i < count {
      LateFiringIgnored(count, i + 1, t, u);
    }
  }

  // ---------------------------------------------------------------------------
  // The drain

  /** All or nothing: the drain yields every element 0 .. count - 1 unless some due element sees the
      token fired, in which case it yields nothing. */
  lemma DrainAllOrNothing(count: int, token: seq<Probe>)
    ensures Drained(count, token) ==
      if exists k :: 0 <= k < count && Cancels(k, ProbeAt(token, k)) then None else Some(Range(0, count))
  {
    CancelledIff(count, 0, token);
    EnumerateIsAscendingPrefix(count, 0, token);
  }

  /** A drain over the linked token is cancelled exactly when one of the two tokens fires while an
      element is due. */
  lemma DrainCancelledByEither(count: int, a: seq<Probe>, b: seq<Probe>)
    ensures Drained(count, Linked(a, b)).None? <==>
      exists k :: 0 <= k < count && (Cancels(k, ProbeAt(a, k)) || Cancels(k, ProbeAt(b, k)))
  {
    var t := Linked(a, b);
    CancelledIff(count, 0, t);
    assert forall k :: Cancels(k, ProbeAt(t, k)) <==> Cancels(k, ProbeAt(a, k)) || Cancels(k, ProbeAt(b, k));
  }
}
