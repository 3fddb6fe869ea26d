/**
 * The two single-input utility chains: PassThroughChain
 * (actchain/chains/pass_through.py), which re-emits what it receives, and
 * IntervalSamplingChain (actchain/chains/sampling.py), which lets an event
 * through only when the interval has elapsed since the last one it let through.
 *
 * The clock is an integer reading in milliseconds passed to the handler; the
 * interval is in seconds, as the node is configured.
 */
module Utilities {
  import opened Events
  import opened Nodes

  // ---------------------------------------------------------------------------
  // Pass-through

  /**
   * `PassThroughChain._on_handle`: record the event as last handled, call the
   * callback when one was given (its return value is discarded, its exception
   * propagates), then return the payload unchanged.
   */
  function HandlePassThrough(n: Node, e: Event, callback: Call): Handled
    requires n.kind.PassThroughKind?
  {
    var n1 := n.(lastHandle := Some(e));
    if n.kind.callback && callback.Raises? then Handled(n1, Err(UserCodeError))
    else Handled(n1, Ok(Some(e.data)))
  }

  /**
   * The node hands back exactly the payload it received, whatever the
   * callback returns; only a raising callback stops it. Every handled event
   * becomes the last handled event.
   */
  lemma PassThroughIdentity(n: Node, e: Event, callback: Call)
    requires n.kind.PassThroughKind?
    ensures var h := HandlePassThrough(n, e, callback);
      && h.node == n.(lastHandle := Some(e))
      && (h.result.Ok? <==> !(n.kind.callback && callback.Raises?))
      && (h.result.Ok? ==> h.result.value == Some(e.data))
      && (!n.kind.callback ==> h.result == Ok(Some(e.data)))
  {
  }

  // ---------------------------------------------------------------------------
  // Interval sampling

  /** `_should_thinning_out`: never before the first emission; afterwards, while less than the interval has elapsed. */
  predicate ShouldThinOut(lastEmitTs: Option<int>, interval: int, now: int) {
    lastEmitTs.Some? && now - lastEmitTs.value < interval * 1000
  }

  /**
   * `IntervalSamplingChain._on_handle` at clock reading `now`: a thinned-out
   * event returns None and changes nothing; any other event becomes the last
   * handled event, stamps the emission time and is returned unchanged.
   */
  function HandleSampling(n: Node, e: Event, now: int): Handled
    requires n.kind.SamplingKind?
  {
    if ShouldThinOut(n.kind.lastEmitTs, n.kind.interval, now) then Handled(n, Ok(None))
    else Handled(n.(lastHandle := Some(e), kind := n.kind.(lastEmitTs := Some(now))), Ok(Some(e.data)))
  }

  /**
   * One event: it passes iff the node has never emitted or at least the
   * interval has elapsed; a passing event is returned unchanged and moves the
   * emission time to `now`; a suppressed one leaves the node as it was.
   */
  lemma SamplingGate(n: Node, e: Event, now: int)
    requires n.kind.SamplingKind?
    ensures var h := HandleSampling(n, e, now);
      && h.result.Ok?
      && (h.result.value.Some? <==> n.kind.lastEmitTs.None? || now - n.kind.lastEmitTs.value >= n.kind.interval * 1000)
      && (h.result.value.Some? ==> h.result.value.value == e.data && h.node.kind.lastEmitTs == Some(now)
                                   && h.node.lastHandle == Some(e))
      && (h.result.value.None? ==> h.node == n)
  {
  }

  /** A node fresh from its constructor lets its first event through. */
  lemma SamplingFirstPasses(n: Node, e: Event, now: int)
    requires n.kind.SamplingKind? && InitialKind(n.kind)
    ensures HandleSampling(n, e, now).result == Ok(Some(e.data))
  {
  }

  /**
   * The clock readings, among `times`, at which a sampling node with interval
   * `interval` and last emission `last` lets an event through, one event per reading.
   */
  function Passed(last: Option<int>, interval: int, times: seq<int>): (r: seq<int>)
    decreases |times|
  {
    if times == [] then []
    else if ShouldThinOut(last, interval, times[0]) then Passed(last, interval, times[1..])
    else [times[0]] + Passed(Some(times[0]), interval, times[1..])
  }

  /** Feeding the node one event per reading: its final state and the payloads it returned, in order. */
  function SampleAll(n: Node, es: seq<Event>, times: seq<int>): (r: (Node, seq<Payload>))
    requires n.kind.SamplingKind? && |es| == |times|
    ensures r.0.kind.SamplingKind? && r.0.kind.interval == n.kind.interval
    decreases |es|
  {
    if es == [] then (n, [])
    else
      var h := HandleSampling(n, es[0], times[0]);
      var rest := SampleAll(h.node, es[1..], times[1..]);
      (rest.0, (if h.result.value.Some? then [h.result.value.value] else []) + rest.1)
  }

  /** Every passing reading is at least the interval after the previous one, and after the node's earlier emission. */
  lemma {:induction false} PassedSpacing(last: Option<int>, interval: int, times: seq<int>)
    ensures var r := Passed(last, interval, times);
      && (forall k | 0 <= k < |r| - 1 :: r[k + 1] - r[k] >= interval * 1000)
      && (last.Some? && |r| > 0 ==> r[0] - last.value >= interval * 1000)
    decreases |times|
  {
    if times != [] {
      if ShouldThinOut(last, interval, times[0]) {
        PassedSpacing(last, interval, times[1..]);
      } else {
        PassedSpacing(Some(times[0]), interval, times[1..]);
      }
    }
  }

  /** Each index moved one place on. */
  function Shift(idx: seq<nat>): (r: seq<nat>)
    ensures |r| == |idx| && forall k | 0 <= k < |idx| :: r[k] == idx[k] + 1
  {
    seq(|idx|, k requires 0 <= k < |idx| => idx[k] + 1)
  }

  /**
   * The positions, among `times`, of the readings at which the node lets an
   * event through: increasing, and each the reading `Passed` lists at that rank.
   */
  function PassedAt(last: Option<int>, interval: int, times: seq<int>): (r: seq<nat>)
    ensures |r| == |Passed(last, interval, times)|
    ensures forall k | 0 <= k < |r| :: r[k] < |times| && times[r[k]] == Passed(last, interval, times)[k]
    ensures forall k | 0 <= k < |r| - 1 :: r[k] < r[k + 1]
    decreases |times|
  {
    if times == [] then []
    else if ShouldThinOut(last, interval, times[0]) then Shift(PassedAt(last, interval, times[1..]))
    else [0] + Shift(PassedAt(Some(times[0]), interval, times[1..]))
  }

  /** The payloads of the events of `es` at positions `idx`, in that order. */
  function Picks(es: seq<Event>, idx: seq<nat>): (r: seq<Payload>)
    requires forall k | 0 <= k < |idx| :: idx[k] < |es|
    ensures |r| == |idx|
  {
    seq(|idx|, k requires 0 <= k < |idx| => es[idx[k]].data)
  }

  /** The payloads a run of events lets through are exactly those of the events at the passing readings, in order. */
  lemma {:induction false} SampleAllPicks(n: Node, es: seq<Event>, times: seq<int>)
    requires n.kind.SamplingKind? && |es| == |times|
    ensures SampleAll(n, es, times).1 == Picks(es, PassedAt(n.kind.lastEmitTs, n.kind.interval, times))
    decreases |es|
  {
    if es != [] {
      var h := HandleSampling(n, es[0], times[0]);
      SamplingGate(n, es[0], times[0]);
      SampleAllPicks(h.node, es[1..], times[1..]);
      if ShouldThinOut(n.kind.lastEmitTs, n.kind.interval, times[0]) {
        PicksShift(es, PassedAt(n.kind.lastEmitTs, n.kind.interval, times[1..]));
      } else {
        PicksCons(es, PassedAt(Some(times[0]), n.kind.interval, times[1..]));
      }
    }
  }

  /**
   * The payloads a run of events lets through are exactly those of the events
   * at the passing readings, in order, one per passing reading; so a fresh
   * node lets the first one through.
   */
  lemma SampleAllPassed(n: Node, es: seq<Event>, times: seq<int>)
    requires n.kind.SamplingKind? && |es| == |times|
    ensures SampleAll(n, es, times).1 == Picks(es, PassedAt(n.kind.lastEmitTs, n.kind.interval, times))
    ensures |SampleAll(n, es, times).1| == |Passed(n.kind.lastEmitTs, n.kind.interval, times)|
    ensures n.kind.lastEmitTs.None? && es != [] ==>
              |SampleAll(n, es, times).1| > 0 && SampleAll(n, es, times).1[0] == es[0].data
  {
    SampleAllPicks(n, es, times);
    if n.kind.lastEmitTs.None? && es != [] {
      assert PassedAt(None, n.kind.interval, times)[0] == 0;
    }
  }

  /** Picking from the tail is picking one place further on. */
  lemma PicksShift(es: seq<Event>, idx: seq<nat>)
    requires es != [] && forall k | 0 <= k < |idx| :: idx[k] < |es| - 1
    ensures Picks(es[1..], idx) == Picks(es, Shift(idx))
  {
  }

  /** Picking the head, then from the tail, is picking position 0 and then one place further on. */
  lemma PicksCons(es: seq<Event>, idx: seq<nat>)
    requires es != [] && forall k | 0 <= k < |idx| :: idx[k] < |es| - 1
    ensures Picks(es, [0] + Shift(idx)) == [es[0].data] + Picks(es[1..], idx)
  {
    PicksShift(es, idx);
    assert Picks(es, [0] + Shift(idx)) == [es[0].data] + Picks(es, Shift(idx));
  }

  /**
   * The sampling scenario with a one-second interval: of three events read at
   * 0 ms, 100 ms and 1000 ms, a fresh node emits the first and the third payloads.
   */
  lemma SampleAllExample(n: Node, a: Event, b: Event, c: Event)
    requires n.kind.SamplingKind? && n.kind.lastEmitTs.None? && n.kind.interval == 1
    ensures SampleAll(n, [a, b, c], [0, 100, 1000]).1 == [a.data, c.data]
  {
    SampleAllPassed(n, [a, b, c], [0, 100, 1000]);
    SamplingExample();
    var idx := PassedAt(None, 1, [0, 100, 1000]);
    assert idx == [0, 2];
  }

  /** With a one-second interval, readings at 0 ms, 100 ms and 1000 ms let the first and the third through. */
  lemma SamplingExample()
    ensures Passed(None, 1, [0, 100, 1000]) == [0, 1000]
  {
    assert Passed(Some(0), 1, [1000]) == [1000] + Passed(Some(1000), 1, []);
  }
}
