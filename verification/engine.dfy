/**
 * The object graph as the program runs it: every chainable is a record in one
 * arena owned by a `Graph`, and the operations of actchain/chains/base.py and
 * actchain/chains/flow.py update it in place, with the loops the source has.
 * Each method is proved to leave the arena exactly as the corresponding
 * specification function of the other modules says, so everything proved
 * about those functions holds of the running graph.
 */
module Engine {
  import opened Events
  import opened Nodes
  import opened Delivery
  import opened Flows
  import opened FunctionChains
  import opened Processing
  import opened Lifecycle

  class Graph {
    /** Every chainable created so far; an index into it is a reference to one. */
    var nodes: seq<Node>

    predicate Valid()
      reads this
    {
      WellFormed(nodes)
    }

    constructor ()
      ensures Valid() && nodes == []
    {
      nodes := [];
    }

    /**
     * A non-Flow chainable constructed in its initial state; it gets the
     * index after every existing node. `name` is the given name, or the
     * generated one when none was given.
     */
    method NewChain(name: string, kind: Kind) returns (id: nat)
      requires Valid() && IsChain(kind) && InitialKind(kind) && KindOk(nodes, kind)
      modifies this
      ensures Valid() && id == |old(nodes)| && nodes == old(nodes) + [Fresh(name, kind)]
    {
      id := |nodes|;
      var n := Fresh(name, kind);
      assert KindOk(nodes + [n], kind) by {
        if kind.AccompanyKind? {
          assert kind.secondary < |nodes| + 1;
        }
      }
      AppendWellFormed(nodes, n);
      nodes := nodes + [n];
    }

    /** `Flow(name, anchor_chain)`: the anchor is checked, then the Flow is added. */
    method NewFlow(name: string, anchor: Option<nat>) returns (id: nat, err: Option<ChainError>)
      requires Valid() && (anchor.Some? ==> anchor.value < |nodes|)
      modifies this
      ensures Valid()
      ensures var r := NewFlowSpec(old(nodes), name, anchor);
        && (r.Ok? ==> err == None && nodes == r.value && id == |old(nodes)|)
        && (r.Err? ==> err == Some(r.error) && nodes == old(nodes))
    {
      NewFlowChecksAnchor(nodes, name, anchor);
      id := |nodes|;
      if anchor.Some? && !IsAnchorKind(nodes[anchor.value].kind) {
        err := Some(UnsupportedOperation("anchor_chain must be JunctionChain or PassThroughChain"));
        return;
      }
      nodes := nodes + [Fresh(name, FlowKind([], anchor, false))];
      err := None;
    }

    /** Queue `e` on node `l` (a non-Flow node): the body of `Chainable.trigger`. */
    method Enqueue(l: nat, e: Event)
      requires l < |nodes|
      modifies this
      ensures nodes == old(nodes)[l := TriggerNode(old(nodes)[l], e)]
    {
      nodes := nodes[l := TriggerNode(nodes[l], e)];
    }

    /** `trigger(a)` on node `t`; a Flow hands the argument to each node of its first layer in turn. */
    method Trigger(t: nat, a: Arg) returns (err: Option<ChainError>)
      requires Valid() && t < |nodes|
      modifies this
      ensures Valid()
      ensures nodes == TriggerSpec(old(nodes), t, a).state && err == TriggerSpec(old(nodes), t, a).error
    {
      TriggerFrame(nodes, t, a);
      FrameWellFormed(nodes, TriggerSpec(nodes, t, a).state);
      match a
      case NotAnEvent(_) =>
        if nodes[t].kind.FlowKind? && |nodes[t].kind.layers| == 0 {
          err := Some(IndexError);
        } else if nodes[t].kind.FlowKind? && |nodes[t].kind.layers[0]| == 0 {
          err := None;
        } else {
          err := Some(TypeError);
        }
      case AnEvent(e) =>
        var reach := Reach(nodes, t);
        if reach.Err? {
          err := Some(reach.error);
          return;
        }
        var ls := reach.value;
        ghost var s := nodes;
        var k := 0;
        while k < |ls|
          invariant 0 <= k <= |ls| && Within(ls, |s|)
          invariant nodes == TriggerAll(s, ls[..k], e)
        {
          assert ls[..k + 1][..k] == ls[..k];
          Enqueue(ls[k], e);
          k := k + 1;
        }
        assert ls[..k] == ls;
        err := None;
    }

    /** Queue `e` on each of `ls` in turn. */
    method TriggerLeaves(ls: seq<nat>, e: Event)
      requires Valid() && Within(ls, |nodes|)
      modifies this
      ensures Valid() && nodes == TriggerAll(old(nodes), ls, e)
    {
      TriggerAllFrame(nodes, ls, e);
      FrameWellFormed(nodes, TriggerAll(nodes, ls, e));
      ghost var s := nodes;
      var k := 0;
      while k < |ls|
        invariant 0 <= k <= |ls|
        invariant nodes == TriggerAll(s, ls[..k], e)
      {
        assert ls[..k + 1][..k] == ls[..k];
        Enqueue(ls[k], e);
        k := k + 1;
      }
      assert ls[..k] == ls;
    }

    /**
     * `emit(d)` on node `i`: build the event, record it as the last emitted
     * one, then trigger it on every child in order; the first child that
     * raises stops the loop.
     */
    method Emit(i: nat, d: Payload) returns (err: Option<ChainError>)
      requires Valid() && i < |nodes|
      modifies this
      ensures Valid()
      ensures nodes == EmitSpec(old(nodes), i, d).state && err == EmitSpec(old(nodes), i, d).error
    {
      if nodes[i].kind.FlowKind? {
        err := Some(UnsupportedOperation("Flow cannot convert data to event"));
        return;
      }
      ghost var s := nodes;
      var e := Event(nodes[i].name, d);
      ChildrenWithin(nodes, i);
      var children := nodes[i].children;
      nodes := Stamp(nodes, i, e);
      ghost var s1 := nodes;
      assert Frame(s, s1) && WellFormed(s1) by {
        FrameUpdate(s, i, s1[i]);
        FrameWellFormed(s, s1);
      }
      var k := 0;
      while k < |children|
        invariant 0 <= k <= |children| && Within(children, |s|) && children == s[i].children
        invariant Expand(s, children[..k]).ok
        invariant Within(Expand(s, children[..k]).leaves, |s1|)
        invariant nodes == TriggerAll(s1, Expand(s, children[..k]).leaves, e)
        invariant WellFormed(nodes) && Frame(s, nodes)
      {
        ghost var x := Expand(s, children[..k]);
        var c := children[k];
        ReachFrame(s, nodes, c);
        var reach := Reach(nodes, c);
        ExpandSnoc(s, children, k);
        if reach.Err? {
          ExpandFailureSticks(s, children, k + 1);
          err := Some(IndexError);
          return;
        }
        ghost var pre := nodes;
        TriggerLeaves(reach.value, e);
        TriggerAllAppend(s1, x.leaves, reach.value, e);
        TriggerAllFrame(pre, reach.value, e);
        FrameTrans(s, pre, nodes);
        k := k + 1;
      }
      assert children[..k] == children;
      err := None;
    }

    /**
     * `next` on node `i`: the head of its queue, removed; None where the
     * source would wait for an event. A Flow has no queue and raises.
     */
    method Next(i: nat) returns (r: Option<Event>, err: Option<ChainError>)
      requires Valid() && i < |nodes|
      modifies this
      ensures Valid()
      ensures old(nodes)[i].kind.FlowKind? ==>
        r == None && err == Some(UnsupportedOperation("Flow cannot get next event")) && nodes == old(nodes)
      ensures !old(nodes)[i].kind.FlowKind? && old(nodes)[i].queue == [] ==> r == None && err == None && nodes == old(nodes)
      ensures !old(nodes)[i].kind.FlowKind? && old(nodes)[i].queue != [] ==>
        && r == Some(old(nodes)[i].queue[0]) && err == None
        && nodes == old(nodes)[i := old(nodes)[i].(queue := old(nodes)[i].queue[1..])]
    {
      err := None;
      if nodes[i].kind.FlowKind? {
        r, err := None, Some(UnsupportedOperation("Flow cannot get next event"));
        return;
      }
      if nodes[i].queue == [] {
        r := None;
        return;
      }
      r := Some(nodes[i].queue[0]);
      nodes := Replace(nodes, i, nodes[i].(queue := nodes[i].queue[1..]));
    }

    /**
     * `Chain._process_event` on chain `i`: dequeue, handle with `call` as the
     * user code's outcome and `now` as the clock, and emit what the handler returns.
     */
    method ProcessEvent(i: nat, call: Call, now: int) returns (outcome: Outcome)
      requires Valid() && i < |nodes| && IsChain(nodes[i].kind)
      modifies this
      ensures Valid()
      ensures nodes == ProcessStep(old(nodes), i, call, now).state
      ensures outcome == ProcessStep(old(nodes), i, call, now).outcome
    {
      ghost var s := nodes;
      var next, _ := Next(i);
      if next.None? {
        return Waiting;
      }
      var e := next.value;
      assert nodes == Replace(s, i, s[i].(queue := s[i].queue[1..]));
      var h := Handle(nodes, i, e, call, now);
      nodes := Replace(nodes, i, h.node);
      match h.result
      case Err(_) =>
        outcome := Raised(EventHandleError(e));
      case Ok(None) =>
        outcome := Silent;
      case Ok(Some(d)) =>
        var err := Emit(i, d);
        outcome := if err.None? then Emitted(Event(h.node.name, d)) else Raised(err.value);
    }

    /** What `_emit_after_task` does once a task of chain `i` has completed with `call`'s outcome. */
    method EmitAfterTask(i: nat, call: Call) returns (outcome: Outcome)
      requires Valid() && i < |nodes|
      modifies this
      ensures Valid()
      ensures nodes == AfterTask(old(nodes), i, call).state && outcome == AfterTask(old(nodes), i, call).outcome
    {
      match Invoke(call)
      case Err(err) =>
        outcome := Reported(err);
      case Ok(None) =>
        outcome := Silent;
      case Ok(Some(d)) =>
        var name := nodes[i].name;
        var err := Emit(i, d);
        outcome := if err.None? then Emitted(Event(name, d)) else Reported(err.value);
    }

    /** The `k`-th unfinished task of concurrent chain `i` completes. */
    method CompleteConcurrentTask(i: nat, k: nat, call: Call) returns (outcome: Outcome)
      requires Valid() && i < |nodes| && nodes[i].kind.ConcurrentKind? && k < |nodes[i].kind.inFlight|
      modifies this
      ensures Valid()
      ensures nodes == CompleteConcurrent(old(nodes), i, k, call).state
      ensures outcome == CompleteConcurrent(old(nodes), i, k, call).outcome
    {
      nodes := Replace(nodes, i, FinishConcurrent(nodes[i], k));
      outcome := EmitAfterTask(i, call);
    }

    /** The task in exclusive chain `i`'s slot completes. */
    method CompleteExclusiveTask(i: nat, call: Call) returns (outcome: Outcome)
      requires Valid() && i < |nodes| && nodes[i].kind.ExclusiveKind?
      requires nodes[i].kind.slot.Some? && !nodes[i].kind.slot.value.done
      modifies this
      ensures Valid()
      ensures nodes == CompleteExclusive(old(nodes), i, call).state
      ensures outcome == CompleteExclusive(old(nodes), i, call).outcome
    {
      nodes := Replace(nodes, i, FinishExclusive(nodes[i]));
      outcome := EmitAfterTask(i, call);
    }

    // -------------------------------------------------------------------------
    // Building the graph

    /** `p.chain(c)` between two non-Flow nodes: `p` gains child `c`, then `c` gains parent `p`. */
    method ConnectLeaves(p: nat, c: nat)
      requires Valid() && p < |nodes| && c < |nodes|
      modifies this
      ensures Valid() && nodes == Connect(old(nodes), p, c)
    {
      ConnectWellFormed(nodes, p, c);
      nodes := nodes[p := nodes[p].(children := nodes[p].children + [c])];
      nodes := nodes[c := nodes[c].(parents := nodes[c].parents + [p])];
    }

    /** `Flow.add(ms)` on Flow `f`: the nested wiring loop, then `ms` becomes the last layer. */
    method Add(f: nat, ms: seq<nat>) returns (err: Option<ChainError>)
      requires Valid() && f < |nodes| && nodes[f].kind.FlowKind?
      requires Within(ms, |nodes|) && forall k | 0 <= k < |ms| :: IsLeaf(nodes[ms[k]].kind)
      modifies this
      ensures Valid()
      ensures nodes == AddSpec(old(nodes), f, ms).state && err == AddSpec(old(nodes), f, ms).error
    {
      ghost var s := nodes;
      AddWellFormed(nodes, f, ms);
      var kind := nodes[f].kind;
      if kind.frozen {
        return Some(UnsupportedOperation("Cannot add chainable to frozen flow"));
      }
      if kind.layers != [] {
        LayerWithin(nodes, f, |kind.layers| - 1);
        WireLayers(LastLayer(kind.layers), ms);
      }
      assert nodes == WireToLast(s, f, ms);
      nodes := nodes[f := nodes[f].(kind := kind.(layers := kind.layers + [ms]))];
      err := None;
    }

    /** The nested loop of `Flow.add`: each of `prevs` chains each of `ms`, in order. */
    method WireLayers(prevs: seq<nat>, ms: seq<nat>)
      requires Within(prevs, |nodes|) && Within(ms, |nodes|)
      modifies this
      ensures nodes == Wire(old(nodes), prevs, ms)
    {
      ghost var s := nodes;
      var i := 0;
      while i < |prevs|
        invariant 0 <= i <= |prevs| && |nodes| == |s|
        invariant nodes == Wire(s, prevs[..i], ms)
      {
        assert prevs[..i + 1][..i] == prevs[..i];
        WireRowLoop(prevs[i], ms);
        i := i + 1;
      }
      assert prevs[..i] == prevs;
    }

    /** The inner loop of `Flow.add`: `p` chains each of `ms`, in order. */
    method WireRowLoop(p: nat, ms: seq<nat>)
      requires p < |nodes| && Within(ms, |nodes|)
      modifies this
      ensures nodes == WireRow(old(nodes), p, ms)
    {
      ghost var s := nodes;
      var j := 0;
      while j < |ms|
        invariant 0 <= j <= |ms|
        invariant nodes == WireRow(s, p, ms[..j])
      {
        assert ms[..j + 1][..j] == ms[..j];
        nodes := Connect(nodes, p, ms[j]);
        j := j + 1;
      }
      assert ms[..j] == ms;
    }

    /**
     * `_set_anchor_chain` of Flow `f` (not frozen, with layers): without a
     * supplied anchor, create one at the end of the arena and record it;
     * with one, check its kind against the size of the last layer.
     */
    method SetAnchor(f: nat) returns (a: nat, err: Option<ChainError>)
      requires Valid() && f < |nodes| && nodes[f].kind.FlowKind? && nodes[f].kind.layers != []
      modifies this
      ensures var r := PlanAnchor(old(nodes), f);
        && (r.Ok? ==> err == None && nodes == r.value.state && a == r.value.anchor)
        && (r.Err? ==> err == Some(r.error) && nodes == old(nodes))
      ensures Valid()
    {
      ghost var s := nodes;
      var kind := nodes[f].kind;
      var last := LastLayer(kind.layers);
      err := None;
      match kind.anchor {
        case None =>
          a := |nodes|;
          nodes := nodes + [Fresh(nodes[f].name + "_anchor", DefaultAnchorKind(|last|))];
          nodes := nodes[f := nodes[f].(kind := kind.(anchor := Some(a)))];
          PlanAnchorWellFormed(s, f);
        case Some(given) =>
          a := given;
          assert NodeOk(nodes, nodes[f]);
          if |last| > 1 && !nodes[given].kind.JunctionKind? {
            err := Some(UnsupportedOperation("anchor_chain must be JunctionChain when the last layer has multiple chainables"));
          } else if |last| <= 1 && !nodes[given].kind.PassThroughKind? {
            err := Some(UnsupportedOperation("anchor_chain must be PassThroughChain when the last layer has a single chainable"));
          }
      }
    }

    /**
     * `Flow.freeze` on Flow `f`: nothing when already frozen; refused when
     * empty; otherwise settle the anchor, `add` it as the last layer and
     * mark the Flow frozen.
     */
    method Freeze(f: nat) returns (err: Option<ChainError>)
      requires Valid() && f < |nodes| && nodes[f].kind.FlowKind?
      modifies this
      ensures Valid()
      ensures nodes == FreezeSpec(old(nodes), f).state && err == FreezeSpec(old(nodes), f).error
    {
      ghost var s := nodes;
      var kind := nodes[f].kind;
      if kind.frozen {
        return None;
      }
      if kind.layers == [] {
        return Some(UnsupportedOperation("Cannot freeze empty flow"));
      }
      var a;
      a, err := SetAnchor(f);
      if err.Some? {
        return;
      }
      PlanAnchorWellFormed(s, f);
      FreezeViaAdd(s, f);
      err := Add(f, [a]);
      FrozenWellFormed(nodes, f);
      nodes := nodes[f := nodes[f].(kind := nodes[f].kind.(frozen := true))];
    }

    /**
     * `p.chain(c)` for a non-Flow `p`: `p` gains child `c`; then `c` gains
     * parent `p`, or, for a Flow `c` (`_create_connection_as_child`), each
     * node of its first layer does, in order.
     */
    method ChainFromLeaf(p: nat, c: nat) returns (err: Option<ChainError>)
      requires Valid() && p < |nodes| && c < |nodes| && IsLeaf(nodes[p].kind)
      modifies this
      ensures Valid()
      ensures nodes == LeafChain(old(nodes), p, c).state && err == LeafChain(old(nodes), p, c).error
    {
      LeafChainWellFormed(nodes, p, c);
      if !nodes[c].kind.FlowKind? {
        ConnectLeaves(p, c);
        return None;
      }
      var layers := nodes[c].kind.layers;
      nodes := nodes[p := nodes[p].(children := nodes[p].children + [c])];
      if layers == [] {
        return Some(UnsupportedOperation("Cannot chain to empty flow"));
      }
      ghost var s1 := nodes;
      var first := layers[0];
      assert Within(first, |s1|) by {
        LayerWithin(old(nodes), c, 0);
      }
      var k := 0;
      while k < |first|
        invariant 0 <= k <= |first|
        invariant nodes == AttachParent(s1, first[..k], p)
      {
        assert first[..k + 1][..k] == first[..k];
        var m := first[k];
        nodes := nodes[m := nodes[m].(parents := nodes[m].parents + [p])];
        k := k + 1;
      }
      assert first[..k] == first;
      err := None;
    }

    /** `p.chain(c)`: a Flow freezes itself first and then lets its anchor chain `c`. */
    method Chain(p: nat, c: nat) returns (err: Option<ChainError>)
      requires Valid() && p < |nodes| && c < |nodes|
      modifies this
      ensures Valid()
      ensures nodes == ChainSpec(old(nodes), p, c).state && err == ChainSpec(old(nodes), p, c).error
    {
      if !nodes[p].kind.FlowKind? {
        err := ChainFromLeaf(p, c);
        return;
      }
      ghost var s := nodes;
      err := Freeze(p);
      if err.Some? {
        return;
      }
      FreezeAnchor(s, p);
      err := ChainFromLeaf(nodes[p].kind.anchor.value, c);
    }

    // -------------------------------------------------------------------------
    // Running

    /**
     * `run` of LoopChain `i` whose source yields `values` and then ends, or,
     * when `fails`, raises: the status guard, one `emit` per value, then
     * `_done` and the stopping status.
     */
    method RunLoop(i: nat, values: seq<Payload>, fails: bool) returns (err: Option<ChainError>)
      requires Valid() && i < |nodes| && nodes[i].kind.LoopKind?
      modifies this
      ensures Valid()
      ensures nodes == LoopRun(old(nodes), i, values, fails).state && err == LoopRun(old(nodes), i, values, fails).error
    {
      if nodes[i].status == Running {
        return Some(ChainableAlreadyRunning(nodes[i].name));
      }
      nodes := Replace(nodes, i, nodes[i].(status := Running));
      ghost var s1 := nodes;
      var k := 0;
      while k < |values|
        invariant 0 <= k <= |values| && i < |s1| && WellFormed(s1)
        invariant EmitAll(s1, i, values[..k]).error == None
        invariant nodes == EmitAll(s1, i, values[..k]).state
        invariant Valid()
      {
        EmitAllSnoc(s1, i, values[..k], values[k]);
        assert values[..k + 1] == values[..k] + [values[k]];
        err := Emit(i, values[k]);
        if err.Some? {
          EmitAllStops(s1, i, values, k + 1);
          return;
        }
        k := k + 1;
      }
      assert values[..k] == values;
      if fails {
        return Some(UserCodeError);
      }
      EmitAllFrame(s1, i, values);
      assert SameKind(s1[i].kind, nodes[i].kind);
      nodes := Replace(nodes, i, nodes[i].(kind := LoopKind(true), status := Stopping));
      err := None;
    }

    /**
     * One restart turn of `run_forever` on node `i`: the status becomes
     * ERROR and, with `clear_queue`, events are taken off the queue until it
     * is empty.
     */
    method RestartNode(i: nat, clearQueue: bool)
      requires Valid() && i < |nodes| && !nodes[i].kind.FlowKind?
      modifies this
      ensures Valid() && nodes == old(nodes)[i := Restart(old(nodes)[i], clearQueue)]
    {
      ghost var s := nodes;
      nodes := Replace(nodes, i, nodes[i].(status := Error));
      if clearQueue {
        while nodes[i].queue != []
          invariant Valid() && |nodes| == |s|
          invariant nodes == s[i := s[i].(status := Error, queue := nodes[i].queue)]
          decreases |nodes[i].queue|
        {
          nodes := Replace(nodes, i, nodes[i].(queue := nodes[i].queue[1..]));
        }
      }
    }
  }
}
