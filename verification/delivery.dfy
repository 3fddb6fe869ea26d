/**
 * Delivering events: `Chainable.trigger` and `Chainable.emit`
 * (actchain/chains/base.py), together with the override of `trigger` on a Flow
 * (actchain/chains/flow.py), which hands the event to every node of its first
 * layer instead of queueing it.
 */
module Delivery {
  import opened Events
  import opened Nodes

  /** A new arena, and the error raised part-way through, if any (what was done before it stays done). */
  datatype Change = Change(state: seq<Node>, error: Option<ChainError>)

  function Repeat(e: Event, n: nat): (r: seq<Event>)
    ensures |r| == n && forall k | 0 <= k < n :: r[k] == e
  {
    seq(n, _ => e)
  }

  /**
   * The non-Flow nodes an event triggered at `t` is queued on: `t` itself, or
   * the first layer of a Flow; a Flow with no layers fails on `_chainables[0]`.
   */
  function Reach(s: seq<Node>, t: nat): (r: Result<seq<nat>>)
    requires t < |s|
    ensures WellFormed(s) && r.Ok? ==> forall k | 0 <= k < |r.value| :: r.value[k] < |s| && IsLeaf(s[r.value[k]].kind)
    ensures r.Err? <==> s[t].kind.FlowKind? && s[t].kind.layers == []
  {
    match s[t].kind
    case FlowKind(layers, _, _) =>
      if |layers| == 0 then Err(IndexError)
      else
        assert WellFormed(s) ==> NodeOk(s, s[t]) && KindOk(s, s[t].kind);
        assert layers[0] in layers;
        assert forall k | 0 <= k < |layers[0]| :: layers[0][k] in layers[0];
        Ok(layers[0])
    case _ =>
      assert s[t].kind.FlowKind? == false;
      Ok([t])
  }

  /** Triggering reaches exactly the node itself, or a Flow's first layer. */
  lemma ReachTargets(s: seq<Node>, t: nat)
    requires t < |s|
    ensures var r := Reach(s, t);
      r.Ok? ==> r.value == if s[t].kind.FlowKind? then s[t].kind.layers[0] else [t]
  {
  }

  /** The leaves reached by triggering the targets in order, and whether every trigger succeeded. */
  datatype Expansion = Expansion(leaves: seq<nat>, ok: bool)

  /** Triggering `ts` one after another, stopping at the first that fails. */
  function Expand(s: seq<Node>, ts: seq<nat>): (x: Expansion)
    requires Within(ts, |s|)
    ensures WellFormed(s) ==> forall k | 0 <= k < |x.leaves| :: x.leaves[k] < |s| && IsLeaf(s[x.leaves[k]].kind)
    decreases |ts|
  {
    if ts == [] then Expansion([], true)
    else
      var pre := Expand(s, ts[..|ts| - 1]);
      if !pre.ok then pre
      else
        match Reach(s, ts[|ts| - 1])
        case Ok(ls) => Expansion(pre.leaves + ls, true)
        case Err(_) => Expansion(pre.leaves, false)
  }

  /** Queue `e` on each of `ls`, in order, through `Chainable.trigger`. */
  function TriggerAll(s: seq<Node>, ls: seq<nat>, e: Event): (r: seq<Node>)
    requires Within(ls, |s|)
    ensures |r| == |s|
    decreases |ls|
  {
    if ls == [] then s
    else
      var pre := TriggerAll(s, ls[..|ls| - 1], e);
      var l := ls[|ls| - 1];
      pre[l := TriggerNode(pre[l], e)]
  }

  /**
   * `trigger(a)` on node `t`. On a non-Flow node: an Event is recorded as the
   * last triggered event and appended to the queue; anything else raises
   * TypeError and changes nothing. On a Flow: the argument is handed to every
   * node of the first layer (IndexError when there is none).
   */
  function TriggerSpec(s: seq<Node>, t: nat, a: Arg): (c: Change)
    requires WellFormed(s) && t < |s|
  {
    match a
    case AnEvent(e) =>
      (match Reach(s, t)
       case Ok(ls) => Change(TriggerAll(s, ls, e), None)
       case Err(err) => Change(s, Some(err)))
    case NotAnEvent(_) =>
      if s[t].kind.FlowKind? && |s[t].kind.layers| == 0 then Change(s, Some(IndexError))
      else if s[t].kind.FlowKind? && |s[t].kind.layers[0]| == 0 then Change(s, None)
      else Change(s, Some(TypeError))
  }

  /**
   * `emit(d)` on node `i`: the event `Event(name, d)` is recorded as the last
   * emitted event, then triggered on every child in child order. A Flow cannot
   * build an event and raises UnsupportedOperation.
   */
  function EmitSpec(s: seq<Node>, i: nat, d: Payload): (c: Change)
    requires WellFormed(s) && i < |s|
    ensures |c.state| == |s|
  {
    if s[i].kind.FlowKind? then
      Change(s, Some(UnsupportedOperation("Flow cannot convert data to event")))
    else
      var e := Event(s[i].name, d);
      var x := Reached(s, i);
      Change(TriggerAll(Stamp(s, i, e), x.leaves, e), if x.ok then None else Some(IndexError))
  }

  /** Record `e` as the last event node `i` emitted. */
  function Stamp(s: seq<Node>, i: nat, e: Event): (r: seq<Node>)
    requires i < |s|
  {
    s[i := s[i].(lastEmit := Some(e))]
  }

  lemma ChildrenWithin(s: seq<Node>, i: nat)
    requires WellFormed(s) && i < |s|
    ensures Within(s[i].children, |s|) && Within(s[i].parents, |s|)
  {
    assert NodeOk(s, s[i]);
    forall k | 0 <= k < |s[i].children| ensures s[i].children[k] < |s| {
      assert s[i].children[k] in s[i].children;
    }
    forall k | 0 <= k < |s[i].parents| ensures s[i].parents[k] < |s| {
      assert s[i].parents[k] in s[i].parents;
    }
  }

  /** What an emit from `i` reaches: its children, in order, each expanded by Reach. */
  function Reached(s: seq<Node>, i: nat): (x: Expansion)
    requires WellFormed(s) && i < |s|
    ensures forall k | 0 <= k < |x.leaves| :: x.leaves[k] < |s| && IsLeaf(s[x.leaves[k]].kind)
  {
    ChildrenWithin(s, i);
    Expand(s, s[i].children)
  }

  // ---------------------------------------------------------------------------
  // Properties

  lemma {:induction false} TriggerAllFrame(s: seq<Node>, ls: seq<nat>, e: Event)
    requires Within(ls, |s|)
    ensures Frame(s, TriggerAll(s, ls, e))
    decreases |ls|
  {
    if ls == [] {
      FrameRefl(s);
    } else {
      var pre := TriggerAll(s, ls[..|ls| - 1], e);
      var l := ls[|ls| - 1];
      TriggerAllFrame(s, ls[..|ls| - 1], e);
      FrameUpdate(pre, l, TriggerNode(pre[l], e));
      FrameTrans(s, pre, pre[l := TriggerNode(pre[l], e)]);
    }
  }

  /** Queueing on `a` and then on `b` is queueing on `a + b`. */
  lemma {:induction false} TriggerAllAppend(s: seq<Node>, a: seq<nat>, b: seq<nat>, e: Event)
    requires Within(a, |s|) && Within(b, |s|)
    ensures Within(a + b, |s|)
    ensures TriggerAll(TriggerAll(s, a, e), b, e) == TriggerAll(s, a + b, e)
    decreases |b|
  {
    if b == [] {
      assert a + b == a;
    } else {
      var pre := b[..|b| - 1];
      TriggerAllAppend(s, a, pre, e);
      assert (a + b)[..|a + b| - 1] == a + pre;
    }
  }

  /** Delivering events changes only running state: names, edges and kinds stay. */
  lemma TriggerFrame(s: seq<Node>, t: nat, a: Arg)
    requires WellFormed(s) && t < |s|
    ensures Frame(s, TriggerSpec(s, t, a).state)
  {
    FrameRefl(s);
    if a.AnEvent? && Reach(s, t).Ok? {
      TriggerAllFrame(s, Reach(s, t).value, a.event);
    }
  }

  lemma EmitFrame(s: seq<Node>, i: nat, d: Payload)
    requires WellFormed(s) && i < |s|
    ensures Frame(s, EmitSpec(s, i, d).state)
  {
    FrameRefl(s);
    if !s[i].kind.FlowKind? {
      var e := Event(s[i].name, d);
      var s1 := Stamp(s, i, e);
      FrameUpdate(s, i, s1[i]);
      TriggerAllFrame(s1, Reached(s, i).leaves, e);
      FrameTrans(s, s1, TriggerAll(s1, Reached(s, i).leaves, e));
    }
  }

  /** Reach depends only on the kinds of the nodes, which running never changes. */
  lemma ReachFrame(s: seq<Node>, s2: seq<Node>, t: nat)
    requires Frame(s, s2) && t < |s|
    ensures Reach(s, t) == Reach(s2, t)
  {
    assert SameKind(s[t].kind, s2[t].kind);
  }

  lemma {:induction false} ExpandFrame(s: seq<Node>, s2: seq<Node>, ts: seq<nat>)
    requires Frame(s, s2) && Within(ts, |s|)
    ensures Expand(s, ts) == Expand(s2, ts)
    decreases |ts|
  {
    if ts != [] {
      ExpandFrame(s, s2, ts[..|ts| - 1]);
      ReachFrame(s, s2, ts[|ts| - 1]);
    }
  }

  /** Targets are triggered one at a time: expanding one more target extends the leaves by what it reaches. */
  lemma ExpandSnoc(s: seq<Node>, ts: seq<nat>, k: nat)
    requires Within(ts, |s|)
    requires k < |ts| && Expand(s, ts[..k]).ok
    ensures var x := Expand(s, ts[..k + 1]);
      match Reach(s, ts[k])
      case Ok(ls) => x == Expansion(Expand(s, ts[..k]).leaves + ls, true)
      case Err(_) => x == Expansion(Expand(s, ts[..k]).leaves, false)
  {
    assert ts[..k + 1][..k] == ts[..k];
  }

  /** The first failing trigger ends the delivery: later targets receive nothing. */
  lemma {:induction false} ExpandFailureSticks(s: seq<Node>, ts: seq<nat>, k: nat)
    requires Within(ts, |s|)
    requires k <= |ts| && !Expand(s, ts[..k]).ok
    ensures Expand(s, ts) == Expand(s, ts[..k])
    decreases |ts| - k
  {
    if k < |ts| {
      assert ts[..k + 1][..k] == ts[..k];
      ExpandFailureSticks(s, ts, k + 1);
    } else {
      assert ts[..k] == ts;
    }
  }

  /** Triggering a run of targets succeeds iff none of them is a Flow with no layer. */
  lemma {:induction false} ExpandOk(s: seq<Node>, ts: seq<nat>)
    requires Within(ts, |s|)
    ensures Expand(s, ts).ok <==> forall k | 0 <= k < |ts| :: !(s[ts[k]].kind.FlowKind? && s[ts[k]].kind.layers == [])
    decreases |ts|
  {
    if ts != [] {
      var pre := ts[..|ts| - 1];
      ExpandOk(s, pre);
      assert forall k | 0 <= k < |pre| :: pre[k] == ts[k];
    }
  }

  /** An emit fails iff one of the emitter's children is a Flow with no layer. */
  lemma EmitFailsIff(s: seq<Node>, i: nat, d: Payload)
    requires WellFormed(s) && i < |s| && IsLeaf(s[i].kind)
    ensures var cs := s[i].children;
      && Within(cs, |s|)
      && (EmitSpec(s, i, d).error.None? <==> forall k | 0 <= k < |cs| :: !(s[cs[k]].kind.FlowKind? && s[cs[k]].kind.layers == []))
  {
    ChildrenWithin(s, i);
    EmitEffect(s, i, d, i);
    ExpandOk(s, s[i].children);
  }

  /** Targets that are all non-Flow nodes are reached exactly as listed, duplicates included. */
  lemma {:induction false} ExpandLeaves(s: seq<Node>, ts: seq<nat>)
    requires Within(ts, |s|) && forall k | 0 <= k < |ts| :: IsLeaf(s[ts[k]].kind)
    ensures Expand(s, ts) == Expansion(ts, true)
    decreases |ts|
  {
    if ts != [] {
      ExpandLeaves(s, ts[..|ts| - 1]);
      assert ts[..|ts| - 1] + [ts[|ts| - 1]] == ts;
    }
  }

  /**
   * The effect of queueing `e` on `ls`: node `j` gains one copy of `e` per
   * occurrence of `j` in `ls`, at the tail of its queue, and its last
   * triggered event becomes `e` when it occurs at all; nothing else changes.
   */
  lemma {:induction false} TriggerAllEffect(s: seq<Node>, ls: seq<nat>, e: Event, j: nat)
    requires Within(ls, |s|)
    requires j < |s|
    ensures TriggerAll(s, ls, e)[j]
         == s[j].(queue := s[j].queue + Repeat(e, multiset(ls)[j]),
                  lastTrigger := if j in ls then Some(e) else s[j].lastTrigger)
    decreases |ls|
  {
    if ls == [] {
      assert s[j].queue + Repeat(e, 0) == s[j].queue;
    } else {
      var pre := ls[..|ls| - 1];
      TriggerAllEffect(s, pre, e, j);
      CountLast(ls, j);
      if ls[|ls| - 1] == j {
        var m: multiset<nat> := multiset(pre);
        RepeatSnoc(e, m[j]);
      }
    }
  }

  /** How often `j` occurs in `ls`, counted from its last element. */
  lemma CountLast(ls: seq<nat>, j: nat)
    requires ls != []
    ensures var pre := ls[..|ls| - 1];
      && multiset(ls)[j] == multiset(pre)[j] + (if ls[|ls| - 1] == j then 1 else 0)
      && (j in ls <==> j in pre || ls[|ls| - 1] == j)
  {
    assert ls == ls[..|ls| - 1] + [ls[|ls| - 1]];
  }

  lemma RepeatSnoc(e: Event, n: nat)
    ensures Repeat(e, n + 1) == Repeat(e, n) + [e]
  {
  }

  /** Triggering an Event on a non-Flow node appends it to that node's queue and records it; every other node is unchanged. */
  lemma TriggerEnqueues(s: seq<Node>, t: nat, e: Event)
    requires WellFormed(s) && t < |s| && IsLeaf(s[t].kind)
    ensures TriggerSpec(s, t, AnEvent(e))
         == Change(s[t := s[t].(queue := s[t].queue + [e], lastTrigger := Some(e))], None)
  {
    assert [t][..0] == [];
    assert TriggerAll(s, [], e) == s;
    assert TriggerAll(s, [t], e) == s[t := TriggerNode(s[t], e)];
  }

  /**
   * The queue is first in, first out: two triggers on a non-Flow node leave
   * both events behind the old contents, in trigger order, so the earlier one
   * is dequeued first; the last triggered event is the later one.
   */
  lemma TriggerFifo(s: seq<Node>, t: nat, e1: Event, e2: Event)
    requires WellFormed(s) && t < |s| && IsLeaf(s[t].kind)
    ensures var s1 := TriggerSpec(s, t, AnEvent(e1)).state;
      && WellFormed(s1) && t < |s1|
      && var r := TriggerSpec(s1, t, AnEvent(e2)).state[t];
      && r.queue == s[t].queue + [e1, e2] && r.lastTrigger == Some(e2)
      && r.queue[0] == (if s[t].queue == [] then e1 else s[t].queue[0])
  {
    TriggerEnqueues(s, t, e1);
    var s1 := TriggerSpec(s, t, AnEvent(e1)).state;
    TriggerFrame(s, t, AnEvent(e1));
    FrameWellFormed(s, s1);
    assert SameKind(s[t].kind, s1[t].kind);
    TriggerEnqueues(s1, t, e2);
    assert s[t].queue + [e1] + [e2] == s[t].queue + [e1, e2];
  }

  /** Anything but an Event handed to a non-Flow node raises TypeError and changes nothing. */
  lemma TriggerRejectsNonEvent(s: seq<Node>, t: nat, p: Payload)
    requires WellFormed(s) && t < |s| && IsLeaf(s[t].kind)
    ensures TriggerSpec(s, t, NotAnEvent(p)) == Change(s, Some(TypeError))
  {
  }

  /**
   * Triggering a Flow hands the event to its first layer: every node of that
   * layer gains one copy per occurrence; a Flow with no layer raises IndexError
   * and changes nothing.
   */
  lemma TriggerFlowFansOut(s: seq<Node>, t: nat, e: Event, j: nat)
    requires WellFormed(s) && t < |s| && s[t].kind.FlowKind? && j < |s|
    ensures var c := TriggerSpec(s, t, AnEvent(e));
      var layers := s[t].kind.layers;
      if layers == [] then c == Change(s, Some(IndexError))
      else
        (&& c.error == None
         && c.state[j].queue == s[j].queue + Repeat(e, multiset(layers[0])[j])
         && c.state[j].lastTrigger == (if j in layers[0] then Some(e) else s[j].lastTrigger))
  {
    var layers := s[t].kind.layers;
    if layers != [] {
      assert Reach(s, t) == Ok(layers[0]);
      TriggerAllEffect(s, layers[0], e, j);
    }
  }

  /**
   * Emitting from a non-Flow node: it records `Event(name, d)` as its last
   * emitted event, and every node reached through its children gains one copy
   * of that event per time it is reached, at its queue tail, and records it as
   * its last triggered event; nothing else changes. The emit fails (IndexError)
   * only when a child is a Flow with no layer.
   */
  lemma EmitEffect(s: seq<Node>, i: nat, d: Payload, j: nat)
    requires WellFormed(s) && i < |s| && IsLeaf(s[i].kind) && j < |s|
    ensures var e := Event(s[i].name, d);
      var x := Reached(s, i);
      var c := EmitSpec(s, i, d);
      && c.state[j] == (if j == i then s[j].(lastEmit := Some(e)) else s[j]).(
                          queue := s[j].queue + Repeat(e, multiset(x.leaves)[j]),
                          lastTrigger := if j in x.leaves then Some(e) else s[j].lastTrigger)
      && (c.error.None? <==> x.ok)
  {
    var e := Event(s[i].name, d);
    var s1 := Stamp(s, i, e);
    var x := Reached(s, i);
    assert EmitSpec(s, i, d) == Change(TriggerAll(s1, x.leaves, e), if x.ok then None else Some(IndexError));
    TriggerAllEffect(s1, x.leaves, e, j);
  }

  /**
   * The common case: a node whose children are distinct non-Flow nodes other
   * than itself. Each child receives exactly the emitted event and records it
   * as its last triggered event; the emitter's own queue and last triggered
   * event are untouched; the emit does not fail.
   */
  lemma EmitToChildren(s: seq<Node>, i: nat, d: Payload)
    requires WellFormed(s) && i < |s| && IsLeaf(s[i].kind)
    requires ChildrenSimple(s, i)
    ensures var e := Event(s[i].name, d);
      var c := EmitSpec(s, i, d);
      && c.error == None
      && c.state[i] == s[i].(lastEmit := Some(e))
      && forall k | 0 <= k < |s[i].children| ::
           var ch := s[i].children[k];
           c.state[ch] == s[ch].(queue := s[ch].queue + [e], lastTrigger := Some(e))
  {
    var cs := s[i].children;
    ExpandLeaves(s, cs);
    EmitEffect(s, i, d, i);
    assert multiset(cs)[i] == 0;
    forall k | 0 <= k < |cs|
      ensures EmitSpec(s, i, d).state[cs[k]]
           == s[cs[k]].(queue := s[cs[k]].queue + [Event(s[i].name, d)], lastTrigger := Some(Event(s[i].name, d)))
    {
      EmitToChild(s, i, d, k);
    }
  }

  /** The children of `i` are distinct non-Flow nodes other than `i`. */
  predicate ChildrenSimple(s: seq<Node>, i: nat)
    requires i < |s|
  {
    var cs := s[i].children;
    && (forall k | 0 <= k < |cs| :: cs[k] < |s| && IsLeaf(s[cs[k]].kind) && cs[k] != i)
    && NoDup(cs)
  }

  /** Running-state changes keep the children of `i` distinct non-Flow nodes other than `i`. */
  lemma FrameChildrenSimple(s: seq<Node>, s2: seq<Node>, i: nat)
    requires i < |s| && Frame(s, s2) && ChildrenSimple(s, i)
    ensures ChildrenSimple(s2, i)
  {
    forall k | 0 <= k < |s[i].children| ensures IsLeaf(s2[s[i].children[k]].kind) {
      assert SameKind(s[s[i].children[k]].kind, s2[s[i].children[k]].kind);
    }
  }

  lemma EmitToChild(s: seq<Node>, i: nat, d: Payload, k: nat)
    requires WellFormed(s) && i < |s| && IsLeaf(s[i].kind)
    requires ChildrenSimple(s, i) && k < |s[i].children|
    ensures var e := Event(s[i].name, d);
      var ch := s[i].children[k];
      EmitSpec(s, i, d).state[ch] == s[ch].(queue := s[ch].queue + [e], lastTrigger := Some(e))
  {
    var cs := s[i].children;
    var e := Event(s[i].name, d);
    var ch := cs[k];
    EmitToLeaves(s, i, d);
    TriggerAllEffect(Stamp(s, i, e), cs, e, ch);
    DistinctCountOne(cs, k);
    assert ch in cs && ch != i;
    assert Repeat(e, 1) == [e];
  }

  /**
   * When every child is a non-Flow node the emit triggers exactly the
   * children, in order, repeated children and the emitter itself included.
   */
  lemma EmitToLeaves(s: seq<Node>, i: nat, d: Payload)
    requires WellFormed(s) && i < |s| && IsLeaf(s[i].kind)
    requires forall k | 0 <= k < |s[i].children| :: s[i].children[k] < |s| && IsLeaf(s[s[i].children[k]].kind)
    ensures var e := Event(s[i].name, d);
      EmitSpec(s, i, d) == Change(TriggerAll(Stamp(s, i, e), s[i].children, e), None)
  {
    ExpandLeaves(s, s[i].children);
  }

  /** In a sequence without repetitions an element occurs once. */
  lemma {:induction false} DistinctCountOne(xs: seq<nat>, k: nat)
    requires k < |xs|
    requires NoDup(xs)
    ensures multiset(xs)[xs[k]] == 1
    decreases |xs|
  {
    var last := |xs| - 1;
    assert xs == xs[..last] + [xs[last]];
    if k == last {
      assert xs[k] !in xs[..last];
    } else {
      DistinctCountOne(xs[..last], k);
    }
  }
}
