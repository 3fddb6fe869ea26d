/**
 * The status machine of a chainable (`run` and the restart step of
 * `run_forever` in actchain/chains/base.py) and the run of a LoopChain
 * (actchain/chains/loop.py), which emits every value its source yields and
 * then marks itself done.
 */
module Lifecycle {
  import opened Events
  import opened Nodes
  import opened Delivery
  import opened Processing

  /** The guard at the start of `run`: a running node refuses; any other starts running. */
  function RunGuard(n: Node): (r: Result<Node>)
  {
    if n.status == Running then Err(ChainableAlreadyRunning(n.name)) else Ok(n.(status := Running))
  }

  /**
   * `run` after its body ended: a normal return sets the status back to
   * stopping; an exception skips that line and propagates.
   */
  function RunEnd(n: Node, body: Result<()>): Node {
    if body.Ok? then n.(status := Stopping) else n
  }

  /**
   * One turn of `run_forever` after `run` ended, normally or not: the status
   * becomes ERROR and, with `clear_queue`, the queue is drained.
   */
  function Restart(n: Node, clearQueue: bool): Node {
    n.(status := Error, queue := if clearQueue then [] else n.queue)
  }

  /** `run` refuses exactly when the node is already running; otherwise only the status changes, to running. */
  lemma RunGuardRefusesRunning(n: Node)
    ensures RunGuard(n).Err? <==> n.status == Running
    ensures RunGuard(n).Err? ==> RunGuard(n).error == ChainableAlreadyRunning(n.name)
    ensures RunGuard(n).Ok? ==> RunGuard(n).value == n.(status := Running)
  {
  }

  /**
   * A freshly constructed node can be run; a run that returns normally leaves
   * it stopping and runnable again, while a run whose body raises leaves it
   * running, so a second `run` is refused until `run_forever` sets ERROR.
   */
  lemma RunLifecycle(name: string, k: Kind, body: Result<()>)
    ensures var started := RunGuard(Fresh(name, k));
      && started.Ok? && started.value.status == Running
      && (RunGuard(RunEnd(started.value, body)).Ok? <==> body.Ok?)
      && RunGuard(Restart(RunEnd(started.value, body), false)).Ok?
  {
  }

  /** After the restart step the guard always lets the node run again, and with `clear_queue` its queue is empty; edges and last events are kept. */
  lemma RestartRunnable(n: Node, clearQueue: bool)
    ensures var r := Restart(n, clearQueue);
      && RunGuard(r).Ok? && r.status == Error
      && (clearQueue ==> r.queue == []) && (!clearQueue ==> r.queue == n.queue)
      && r.parents == n.parents && r.children == n.children
      && r.lastEmit == n.lastEmit && r.lastTrigger == n.lastTrigger && r.kind == n.kind
  {
  }

  // ---------------------------------------------------------------------------
  // LoopChain

  /** Emit the values in order from node `i`, stopping at the first emit that raises. */
  function EmitAll(s: seq<Node>, i: nat, values: seq<Payload>): (c: Change)
    requires WellFormed(s) && i < |s|
    ensures |c.state| == |s|
    decreases |values|
  {
    if values == [] then Change(s, None)
    else
      var c1 := EmitSpec(s, i, values[0]);
      EmitFrame(s, i, values[0]);
      FrameWellFormed(s, c1.state);
      if c1.error.Some? then c1
      else EmitAll(c1.state, i, values[1..])
  }

  /** Emitting changes no name, edge or kind, and keeps the arena well formed. */
  lemma {:induction false} EmitAllFrame(s: seq<Node>, i: nat, values: seq<Payload>)
    requires WellFormed(s) && i < |s|
    ensures WellFormed(EmitAll(s, i, values).state) && Frame(s, EmitAll(s, i, values).state)
    decreases |values|
  {
    if values == [] {
      FrameRefl(s);
    } else {
      var c1 := EmitSpec(s, i, values[0]);
      EmitFrame(s, i, values[0]);
      FrameWellFormed(s, c1.state);
      if c1.error.None? {
        EmitAllFrame(c1.state, i, values[1..]);
        FrameTrans(s, c1.state, EmitAll(c1.state, i, values[1..]).state);
      }
    }
  }

  /** Emitting one more value after a run of successful emits. */
  lemma {:induction false} EmitAllSnoc(s: seq<Node>, i: nat, values: seq<Payload>, v: Payload)
    requires WellFormed(s) && i < |s| && EmitAll(s, i, values).error == None
    ensures var c := EmitAll(s, i, values);
      WellFormed(c.state) && EmitAll(s, i, values + [v]) == EmitSpec(c.state, i, v)
    decreases |values|
  {
    EmitAllFrame(s, i, values);
    if values == [] {
      assert values + [v] == [v];
      assert [v][1..] == [];
    } else {
      var c1 := EmitSpec(s, i, values[0]);
      EmitFrame(s, i, values[0]);
      FrameWellFormed(s, c1.state);
      assert (values + [v])[0] == values[0];
      assert (values + [v])[1..] == values[1..] + [v];
      EmitAllSnoc(c1.state, i, values[1..], v);
    }
  }

  /** Once an emit among the first `k` values raises, the remaining values are never emitted. */
  lemma {:induction false} EmitAllStops(s: seq<Node>, i: nat, values: seq<Payload>, k: nat)
    requires WellFormed(s) && i < |s| && k <= |values| && EmitAll(s, i, values[..k]).error.Some?
    ensures EmitAll(s, i, values) == EmitAll(s, i, values[..k])
    decreases |values|
  {
    var c1 := EmitSpec(s, i, values[0]);
    assert values[..k][0] == values[0];
    if c1.error.None? {
      EmitFrame(s, i, values[0]);
      FrameWellFormed(s, c1.state);
      assert values[..k][1..] == values[1..][..k - 1];
      EmitAllStops(c1.state, i, values[1..], k - 1);
    }
  }

  /**
   * `run` of LoopChain `i`, whose source yields `values` and then either ends
   * or, when `fails`, raises: the status guard, then every value emitted in
   * order, then `_done` set and the status back to stopping. An exception,
   * from the source or from an emit, propagates: `_done` and the running
   * status stay.
   */
  function LoopRun(s: seq<Node>, i: nat, values: seq<Payload>, fails: bool): (c: Change)
    requires WellFormed(s) && i < |s| && s[i].kind.LoopKind?
  {
    match RunGuard(s[i])
    case Err(err) => Change(s, Some(err))
    case Ok(n) =>
      var s1 := Replace(s, i, n);
      var c := EmitAll(s1, i, values);
      if c.error.Some? then c
      else if fails then Change(c.state, Some(UserCodeError))
      else Change(c.state[i := c.state[i].(kind := LoopKind(true), status := Stopping)], None)
  }

  /**
   * `r` is `s` after node `i` emitted the events `es`: each of its children's
   * queues gained them in order, its last emitted event is the last of them,
   * and nothing else on the node changed.
   */
  predicate Emits(s: seq<Node>, r: seq<Node>, i: nat, es: seq<Event>)
  {
    && i < |s| && |r| == |s|
    && r[i] == s[i].(lastEmit := if es == [] then s[i].lastEmit else Some(es[|es| - 1]))
    && forall k | 0 <= k < |s[i].children| ::
         s[i].children[k] < |s| && r[s[i].children[k]].queue == s[s[i].children[k]].queue + es
  }

  /**
   * Emitting values from a node whose children are distinct non-Flow nodes
   * other than itself: every value is emitted, stamped with the node's name,
   * each child's queue gains the events in order, the node's own queue and
   * last triggered event are untouched, and the last value is its last
   * emitted event.
   */
  lemma {:induction false} EmitAllInOrder(s: seq<Node>, i: nat, values: seq<Payload>)
    requires WellFormed(s) && i < |s| && IsLeaf(s[i].kind) && ChildrenSimple(s, i)
    ensures var c := EmitAll(s, i, values);
      c.error == None && Emits(s, c.state, i, Stamped(s[i].name, values))
    decreases |values|
  {
    if values != [] {
      var c1 := EmitSpec(s, i, values[0]);
      EmitOnce(s, i, values[0]);
      EmitAllFirst(s, i, values);
      EmitAllInOrder(c1.state, i, values[1..]);
      StampedCons(s[i].name, values);
      EmitsCompose(s, c1.state, EmitAll(c1.state, i, values[1..]).state, i, Event(s[i].name, values[0]), Stamped(s[i].name, values[1..]));
    }
  }

  /** One emit from a node with simple children, in the terms the loop needs: the queues grow and the conditions stay. */
  lemma EmitOnce(s: seq<Node>, i: nat, d: Payload)
    requires WellFormed(s) && i < |s| && IsLeaf(s[i].kind) && ChildrenSimple(s, i)
    ensures var c1 := EmitSpec(s, i, d);
      && c1.error == None && WellFormed(c1.state) && ChildrenSimple(c1.state, i)
      && Emits(s, c1.state, i, [Event(s[i].name, d)])
  {
    var c1 := EmitSpec(s, i, d);
    EmitToChildren(s, i, d);
    EmitFrame(s, i, d);
    FrameWellFormed(s, c1.state);
    FrameChildrenSimple(s, c1.state, i);
  }

  /** Emitting several values is emitting the first, then, unless that raised, the rest. */
  lemma EmitAllFirst(s: seq<Node>, i: nat, values: seq<Payload>)
    requires WellFormed(s) && i < |s| && values != []
    ensures var c1 := EmitSpec(s, i, values[0]);
      && WellFormed(c1.state)
      && EmitAll(s, i, values) == if c1.error.Some? then c1 else EmitAll(c1.state, i, values[1..])
  {
    EmitFrame(s, i, values[0]);
    FrameWellFormed(s, EmitSpec(s, i, values[0]).state);
  }

  /** One emitted event followed by more is their concatenation emitted. */
  lemma EmitsCompose(s: seq<Node>, s1: seq<Node>, r: seq<Node>, i: nat, e: Event, es: seq<Event>)
    requires Emits(s, s1, i, [e]) && Emits(s1, r, i, es)
    ensures Emits(s, r, i, [e] + es)
  {
    var cs := s[i].children;
    forall k | 0 <= k < |cs| ensures r[cs[k]].queue == s[cs[k]].queue + ([e] + es) {
      assert s[cs[k]].queue + [e] + es == s[cs[k]].queue + ([e] + es);
    }
  }

  /**
   * A LoopChain that is not running, with children that are distinct non-Flow
   * nodes other than itself: every value is emitted once, in order, stamped
   * with its name, and its queue is never read. If the source ends, the run
   * returns normally, `done` holds and the status is stopping; if it raises,
   * the exception propagates after the same emissions, `done` is unchanged
   * and the status stays running.
   */
  lemma LoopEmitsThenDone(s: seq<Node>, i: nat, values: seq<Payload>, fails: bool)
    requires WellFormed(s) && i < |s| && s[i].kind.LoopKind? && s[i].status != Running && ChildrenSimple(s, i)
    ensures var c := LoopRun(s, i, values, fails);
      var es := Stamped(s[i].name, values);
      && (c.error.None? <==> !fails)
      && (fails ==> c.error == Some(UserCodeError) && c.state[i].kind == s[i].kind && c.state[i].status == Running)
      && (!fails ==> c.state[i].kind == LoopKind(true) && c.state[i].status == Stopping)
      && c.state[i].queue == s[i].queue
      && (values != [] ==> c.state[i].lastEmit == Some(es[|es| - 1]))
      && forall k | 0 <= k < |s[i].children| :: c.state[s[i].children[k]].queue == s[s[i].children[k]].queue + es
  {
    var s1 := Replace(s, i, s[i].(status := Running));
    assert ChildrenSimple(s1, i);
    EmitAllInOrder(s1, i, values);
  }

  /** A running LoopChain refuses to run again and changes nothing. */
  lemma LoopRunRefused(s: seq<Node>, i: nat, values: seq<Payload>, fails: bool)
    requires WellFormed(s) && i < |s| && s[i].kind.LoopKind? && s[i].status == Running
    ensures LoopRun(s, i, values, fails) == Change(s, Some(ChainableAlreadyRunning(s[i].name)))
  {
  }
}
