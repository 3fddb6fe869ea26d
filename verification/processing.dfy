/**
 * The processing loop of `Chain` (actchain/chains/base.py): one step dequeues
 * the head event, hands it to the node's `_on_handle`, and emits a non-None
 * result; a handler exception becomes EventHandleError. The completion of a
 * task started by a concurrent or exclusive chain is a step of its own, whose
 * done-callback emits the task's non-None result.
 */
module Processing {
  import opened Events
  import opened Nodes
  import opened Delivery
  import opened Flows
  import opened FunctionChains
  import opened Junctions
  import opened Utilities

  /**
   * How a step ends.
   *   Waiting      the queue is empty: `next` blocks, nothing happens
   *   Silent       the handler returned None (or the task's result was None)
   *   Emitted(e)   `e` was emitted
   *   Raised(err)  `_process_event` raised `err`, ending the node's run
   *   Reported(err) a done-callback raised `err`; it goes to the event loop's
   *                exception handler, not to the node's run
   */
  datatype Outcome = Waiting | Silent | Emitted(event: Event) | Raised(error: ChainError) | Reported(reported: ChainError)

  datatype Step = Step(state: seq<Node>, outcome: Outcome)

  /** The names of the nodes at `ps`, in order. */
  function Names(s: seq<Node>, ps: seq<nat>): (r: seq<string>)
    requires Within(ps, |s|)
    ensures |r| == |ps| && forall k | 0 <= k < |ps| :: r[k] == s[ps[k]].name
    decreases |ps|
  {
    if ps == [] then [] else Names(s, ps[..|ps| - 1]) + [s[ps[|ps| - 1]].name]
  }

  /**
   * `_on_handle` of node `i`, dispatched on its kind. A Junction checks its
   * parents' names; an Accompany node reads the name and the last emitted
   * event of its secondary. `call` is what the user code involved returns or
   * raises, `now` the clock reading a sampling node takes.
   */
  function Handle(s: seq<Node>, i: nat, e: Event, call: Call, now: int): (h: Handled)
    requires WellFormed(s) && i < |s| && IsChain(s[i].kind)
    ensures h.node.name == s[i].name && h.node.parents == s[i].parents && h.node.children == s[i].children
    ensures h.node.queue == s[i].queue && h.node.status == s[i].status
    ensures h.node.lastEmit == s[i].lastEmit && h.node.lastTrigger == s[i].lastTrigger
    ensures SameKind(s[i].kind, h.node.kind)
  {
    var n := s[i];
    assert NodeOk(s, s[i]);
    match n.kind
    case FunctionKind => HandleSequential(n, e, call)
    case ConcurrentKind(_) => HandleConcurrent(n, e)
    case ExclusiveKind(_) => HandleExclusive(n, e)
    case JunctionKind(_, _, _) =>
      ChildrenWithin(s, i);
      JunctionStores(n, Names(s, n.parents), e, call);
      HandleJunction(n, Names(s, n.parents), e, call)
    case AccompanyKind(secondary, _, _) =>
      HandleAccompany(n, s[secondary].name, LastEmitEvent(s, secondary), e, call)
    case PassThroughKind(_) => HandlePassThrough(n, e, call)
    case SamplingKind(_, _) => HandleSampling(n, e, now)
  }

  /** Replace node `i` by a state that keeps its name, edges and kind; the arena stays well formed. */
  function Replace(s: seq<Node>, i: nat, n: Node): (r: seq<Node>)
    requires WellFormed(s) && i < |s|
    requires n.name == s[i].name && n.parents == s[i].parents && n.children == s[i].children
    requires SameKind(s[i].kind, n.kind)
    ensures WellFormed(r) && Frame(s, r) && |r| == |s| && r[i] == n
    ensures forall j | 0 <= j < |s| && j != i :: r[j] == s[j]
  {
    FrameUpdate(s, i, n);
    FrameWellFormed(s, s[i := n]);
    s[i := n]
  }

  /** Emit `d` from node `i`, reporting the outcome as a step. */
  function EmitStep(s: seq<Node>, i: nat, d: Payload, fail: ChainError -> Outcome): (r: Step)
    requires WellFormed(s) && i < |s|
  {
    var c := EmitSpec(s, i, d);
    Step(c.state, if c.error.None? then Emitted(Event(s[i].name, d)) else fail(c.error.value))
  }

  /**
   * `Chain._process_event`: with an empty queue the node waits; otherwise the
   * head event is dequeued and handled, a handler exception is raised as
   * EventHandleError of that event (the handler's own state changes stay), a
   * None result ends the step, and any other result is emitted, an error of
   * the emit being raised.
   */
  function ProcessStep(s: seq<Node>, i: nat, call: Call, now: int): (r: Step)
    requires WellFormed(s) && i < |s| && IsChain(s[i].kind)
  {
    if s[i].queue == [] then Step(s, Waiting)
    else
      var e := s[i].queue[0];
      var s0 := Replace(s, i, s[i].(queue := s[i].queue[1..]));
      var h := Handle(s0, i, e, call, now);
      var s1 := Replace(s0, i, h.node);
      match h.result
      case Err(_) => Step(s1, Raised(EventHandleError(e)))
      case Ok(None) => Step(s1, Silent)
      case Ok(Some(d)) => EmitStep(s1, i, d, err => Raised(err))
  }

  /**
   * `Chain._emit_after_task`, run when a task completes with `call`'s
   * outcome: `task.result()` re-raises the handler's exception, a None result
   * is dropped, anything else is emitted; errors are reported, not raised.
   */
  function AfterTask(s: seq<Node>, i: nat, call: Call): (r: Step)
    requires WellFormed(s) && i < |s|
  {
    match Invoke(call)
    case Err(err) => Step(s, Reported(err))
    case Ok(None) => Step(s, Silent)
    case Ok(Some(d)) => EmitStep(s, i, d, err => Reported(err))
  }

  /** The `k`-th unfinished task of concurrent chain `i` completes with `call`'s outcome. */
  function CompleteConcurrent(s: seq<Node>, i: nat, k: nat, call: Call): (r: Step)
    requires WellFormed(s) && i < |s| && s[i].kind.ConcurrentKind? && k < |s[i].kind.inFlight|
  {
    AfterTask(Replace(s, i, FinishConcurrent(s[i], k)), i, call)
  }

  /** The task in exclusive chain `i`'s slot completes with `call`'s outcome. */
  function CompleteExclusive(s: seq<Node>, i: nat, call: Call): (r: Step)
    requires WellFormed(s) && i < |s| && s[i].kind.ExclusiveKind?
    requires s[i].kind.slot.Some? && !s[i].kind.slot.value.done
  {
    AfterTask(Replace(s, i, FinishExclusive(s[i])), i, call)
  }

  // ---------------------------------------------------------------------------
  // One step

  /** A step keeps the arena well formed and changes no name, edge or kind of node. */
  lemma ProcessFrame(s: seq<Node>, i: nat, call: Call, now: int)
    requires WellFormed(s) && i < |s| && IsChain(s[i].kind)
    ensures var r := ProcessStep(s, i, call, now);
      WellFormed(r.state) && Frame(s, r.state)
  {
    if s[i].queue != [] {
      var e := s[i].queue[0];
      var s0 := Replace(s, i, s[i].(queue := s[i].queue[1..]));
      var h := Handle(s0, i, e, call, now);
      var s1 := Replace(s0, i, h.node);
      FrameTrans(s, s0, s1);
      if h.result.Ok? && h.result.value.Some? {
        EmitFrame(s1, i, h.result.value.value);
        FrameTrans(s, s1, EmitSpec(s1, i, h.result.value.value).state);
        FrameWellFormed(s1, EmitSpec(s1, i, h.result.value.value).state);
      }
    }
  }

  /**
   * The outcome of a step on a non-empty queue: the head event is handled, an
   * exception becomes EventHandleError of that event and nothing is emitted;
   * a None result emits nothing; otherwise `Event(name, d)` is emitted, with
   * the arena the emit leaves, and becomes the node's last emitted event, or
   * the emit's error is raised.
   * With an empty queue nothing changes.
   */
  lemma ProcessOutcome(s: seq<Node>, i: nat, call: Call, now: int)
    requires WellFormed(s) && i < |s| && IsChain(s[i].kind)
    ensures var r := ProcessStep(s, i, call, now);
      if s[i].queue == [] then r == Step(s, Waiting)
      else
        var e := s[i].queue[0];
        var s0 := Replace(s, i, s[i].(queue := s[i].queue[1..]));
        var h := Handle(s0, i, e, call, now);
        (&& (h.result.Err? <==> r.outcome == Raised(EventHandleError(e)))
         && (h.result.Err? || h.result.value.None? ==> r.state == s0[i := h.node])
         && (h.result.Ok? && h.result.value.None? <==> r.outcome == Silent)
         && (r.outcome.Emitted? ==>
               && h.result == Ok(Some(r.outcome.event.data))
               && r.outcome.event.name == s[i].name
               && r.state[i].lastEmit == Some(r.outcome.event))
         && (h.result.Ok? && h.result.value.Some? ==> r.outcome.Emitted? || r.outcome.Raised?)
         && (h.result.Ok? && h.result.value.Some? ==>
               var d := h.result.value.value;
               var c := EmitSpec(s0[i := h.node], i, d);
               && r.state == c.state
               && r.outcome == if c.error.None? then Emitted(Event(s[i].name, d)) else Raised(c.error.value)))
  {
    if s[i].queue != [] {
      var e := s[i].queue[0];
      var s0 := Replace(s, i, s[i].(queue := s[i].queue[1..]));
      var h := Handle(s0, i, e, call, now);
      if h.result.Ok? && h.result.value.Some? {
        var s1 := Replace(s0, i, h.node);
        var d := h.result.value.value;
        EmitEffect(s1, i, d, i);
        var c := EmitSpec(s1, i, d);
        if c.error.Some? {
          assert ProcessStep(s, i, call, now).outcome == Raised(c.error.value);
          assert c.error.value != EventHandleError(e) by {
            if s1[i].kind.FlowKind? {
            } else {
              assert c.error == Some(IndexError);
            }
          }
        }
      }
    }
  }

  /**
   * A node whose children are distinct non-Flow nodes other than itself: a
   * step that emits takes the head event off the queue and puts the emitted
   * event at the tail of each child's queue; the node's own queue loses
   * exactly its head.
   */
  lemma ProcessDequeuesOne(s: seq<Node>, i: nat, call: Call, now: int)
    requires WellFormed(s) && i < |s| && IsChain(s[i].kind) && ChildrenSimple(s, i) && s[i].queue != []
    ensures var r := ProcessStep(s, i, call, now);
      && r.state[i].queue == s[i].queue[1..]
      && (r.outcome.Raised? ==> r.outcome == Raised(EventHandleError(s[i].queue[0])))
      && (r.outcome.Emitted? ==> forall k | 0 <= k < |s[i].children| ::
            var ch := s[i].children[k];
            r.state[ch].queue == s[ch].queue + [r.outcome.event] && r.state[ch].lastTrigger == Some(r.outcome.event))
      && (!r.outcome.Emitted? ==> forall j | 0 <= j < |s| && j != i :: r.state[j] == s[j])
  {
    var e := s[i].queue[0];
    var s0 := Replace(s, i, s[i].(queue := s[i].queue[1..]));
    var h := Handle(s0, i, e, call, now);
    var s1 := Replace(s0, i, h.node);
    assert ChildrenSimple(s1, i) by {
      forall k | 0 <= k < |s[i].children| ensures IsLeaf(s1[s[i].children[k]].kind) {
        assert SameKind(s[s[i].children[k]].kind, s1[s[i].children[k]].kind);
      }
    }
    if h.result.Ok? && h.result.value.Some? {
      var d := h.result.value.value;
      EmitToChildren(s1, i, d);
      forall k | 0 <= k < |s[i].children|
        ensures s1[s[i].children[k]] == s[s[i].children[k]]
      {
      }
    }
  }

  /**
   * A PassThrough node whose callback does not raise, and none of whose
   * children is a Flow with no layer, re-emits the head event's payload
   * unchanged under its own name, once, and records that event as its last
   * handled event.
   */
  lemma PassThroughReemits(s: seq<Node>, i: nat, call: Call, now: int)
    requires WellFormed(s) && i < |s| && s[i].kind.PassThroughKind? && s[i].queue != []
    requires forall k | 0 <= k < |s[i].children| ::
      s[i].children[k] < |s| && !(s[s[i].children[k]].kind.FlowKind? && s[s[i].children[k]].kind.layers == [])
    requires !(s[i].kind.callback && call.Raises?)
    ensures var r := ProcessStep(s, i, call, now);
      var e := s[i].queue[0];
      && r.outcome == Emitted(Event(s[i].name, e.data))
      && r.state[i].lastHandle == Some(e) && r.state[i].lastEmit == Some(Event(s[i].name, e.data))
  {
    var e := s[i].queue[0];
    var s0 := Replace(s, i, s[i].(queue := s[i].queue[1..]));
    var h := Handle(s0, i, e, call, now);
    var s1 := Replace(s0, i, h.node);
    var cs := s[i].children;
    forall k | 0 <= k < |cs| ensures !(s1[cs[k]].kind.FlowKind? && s1[cs[k]].kind.layers == []) {
      assert SameKind(s[cs[k]].kind, s1[cs[k]].kind);
    }
    EmitFailsIff(s1, i, e.data);
    EmitEffect(s1, i, e.data, i);
  }

  /** A concurrent chain's step never emits: the event joins the unfinished tasks. */
  lemma ConcurrentNeverEmitsOnHandle(s: seq<Node>, i: nat, call: Call, now: int)
    requires WellFormed(s) && i < |s| && s[i].kind.ConcurrentKind? && s[i].queue != []
    ensures var r := ProcessStep(s, i, call, now);
      && r.outcome == Silent
      && r.state == s[i := s[i].(queue := s[i].queue[1..], lastHandle := Some(s[i].queue[0]),
                                 kind := ConcurrentKind(s[i].kind.inFlight + [s[i].queue[0]]))]
  {
  }

  /**
   * A completed task emits its result, stamped with the chain's name, iff the
   * result is not None, with the arena the emit leaves; the handler's
   * exception and an emit error are reported, never raised into the node's
   * run. Only that task leaves the unfinished set.
   */
  lemma ConcurrentCompletionEmits(s: seq<Node>, i: nat, k: nat, call: Call)
    requires WellFormed(s) && i < |s| && s[i].kind.ConcurrentKind? && k < |s[i].kind.inFlight|
    ensures var r := CompleteConcurrent(s, i, k, call);
      var q := s[i].kind.inFlight;
      && (r.outcome.Emitted? <==> call.Returns? && call.result.Some? && !r.outcome.Reported?)
      && (r.outcome.Emitted? ==> r.outcome.event == Event(s[i].name, call.result.value))
      && (call.Raises? ==> r.outcome == Reported(UserCodeError))
      && !r.outcome.Raised? && !r.outcome.Waiting?
      && r.state[i].kind.ConcurrentKind? && r.state[i].kind.inFlight == q[..k] + q[k + 1..]
      && var s1 := Replace(s, i, FinishConcurrent(s[i], k));
      && (call.Raises? ==> r == Step(s1, Reported(UserCodeError)))
      && (call.Returns? && call.result.None? ==> r == Step(s1, Silent))
      && (call.Returns? && call.result.Some? ==>
            var c := EmitSpec(s1, i, call.result.value);
            && r.state == c.state
            && r.outcome == if c.error.None? then Emitted(Event(s[i].name, call.result.value)) else Reported(c.error.value))
  {
    var s1 := Replace(s, i, FinishConcurrent(s[i], k));
    if call.Returns? && call.result.Some? {
      EmitEffect(s1, i, call.result.value, i);
    }
  }

  /** An exclusive chain whose task is in flight drops the head event: only the queue changes. */
  lemma ExclusiveDropsWhileBusy(s: seq<Node>, i: nat, call: Call, now: int)
    requires WellFormed(s) && i < |s| && s[i].kind.ExclusiveKind? && s[i].queue != []
    requires !SlotFree(s[i].kind.slot)
    ensures ProcessStep(s, i, call, now) == Step(s[i := s[i].(queue := s[i].queue[1..])], Silent)
  {
  }

  /** An exclusive chain whose slot is free starts a task on the head event, and emits nothing. */
  lemma ExclusiveStartsWhenFree(s: seq<Node>, i: nat, call: Call, now: int)
    requires WellFormed(s) && i < |s| && s[i].kind.ExclusiveKind? && s[i].queue != []
    requires SlotFree(s[i].kind.slot)
    ensures var e := s[i].queue[0];
      ProcessStep(s, i, call, now)
        == Step(s[i := s[i].(queue := s[i].queue[1..], lastHandle := Some(e), kind := ExclusiveKind(Some(Task(e, false))))], Silent)
  {
  }

  // ---------------------------------------------------------------------------
  // Several steps

  /** `n` consecutive steps of node `i`, the `k`-th with `calls[k]`, and their outcomes. */
  function Drain(s: seq<Node>, i: nat, calls: seq<Call>, now: int): (r: (seq<Node>, seq<Outcome>))
    requires WellFormed(s) && i < |s| && IsChain(s[i].kind)
    ensures WellFormed(r.0) && Frame(s, r.0) && |r.1| == |calls|
    decreases |calls|
  {
    if calls == [] then
      FrameRefl(s);
      (s, [])
    else
      ProcessFrame(s, i, calls[0], now);
      var st := ProcessStep(s, i, calls[0], now);
      assert SameKind(s[i].kind, st.state[i].kind);
      var rest := Drain(st.state, i, calls[1..], now);
      FrameTrans(s, st.state, rest.0);
      (rest.0, [st.outcome] + rest.1)
  }

  /** Several steps are the first step followed by the rest. */
  lemma DrainFirst(s: seq<Node>, i: nat, calls: seq<Call>, now: int)
    requires WellFormed(s) && i < |s| && IsChain(s[i].kind) && calls != []
    ensures var st := ProcessStep(s, i, calls[0], now);
      && WellFormed(st.state) && i < |st.state| && IsChain(st.state[i].kind)
      && var rest := Drain(st.state, i, calls[1..], now);
      && Drain(s, i, calls, now) == (rest.0, [st.outcome] + rest.1)
  {
    ProcessFrame(s, i, calls[0], now);
    assert SameKind(s[i].kind, ProcessStep(s, i, calls[0], now).state[i].kind);
  }

  /** The handler returns each payload of `ds` in turn. */
  function Returning(ds: seq<Payload>): (r: seq<Call>)
    ensures |r| == |ds| && forall k | 0 <= k < |ds| :: r[k] == Returns(Some(ds[k]))
  {
    seq(|ds|, k requires 0 <= k < |ds| => Returns(Some(ds[k])))
  }

  /** `ds` stamped with producer `name`. */
  function Stamped(name: string, ds: seq<Payload>): (r: seq<Event>)
    ensures |r| == |ds| && forall k | 0 <= k < |ds| :: r[k] == Event(name, ds[k])
  {
    seq(|ds|, k requires 0 <= k < |ds| => Event(name, ds[k]))
  }

  /**
   * One step of a sequential FunctionChain whose handler returns `d`, with
   * children that are distinct non-Flow nodes other than itself: it emits
   * `Event(name, d)` to each child's queue tail and keeps those conditions.
   */
  lemma SequentialStep(s: seq<Node>, i: nat, d: Payload, now: int)
    requires WellFormed(s) && i < |s| && s[i].kind.FunctionKind? && ChildrenSimple(s, i) && s[i].queue != []
    ensures var st := ProcessStep(s, i, Returns(Some(d)), now);
      var ev := Event(s[i].name, d);
      && st.outcome == Emitted(ev)
      && WellFormed(st.state) && |st.state| == |s| && st.state[i].children == s[i].children
      && st.state[i].kind.FunctionKind? && ChildrenSimple(st.state, i)
      && st.state[i].queue == s[i].queue[1..]
      && st.state[i].lastEmit == Some(ev) && st.state[i].lastHandle == Some(s[i].queue[0])
      && forall k | 0 <= k < |s[i].children| ::
           st.state[s[i].children[k]].queue == s[s[i].children[k]].queue + [ev]
  {
    var call := Returns(Some(d));
    var e := s[i].queue[0];
    var st := ProcessStep(s, i, call, now);
    ProcessFrame(s, i, call, now);
    ProcessDequeuesOne(s, i, call, now);
    var s0 := Replace(s, i, s[i].(queue := s[i].queue[1..]));
    var s1 := Replace(s0, i, Handle(s0, i, e, call, now).node);
    assert ChildrenSimple(s1, i) by {
      forall k | 0 <= k < |s[i].children| ensures IsLeaf(s1[s[i].children[k]].kind) {
        assert SameKind(s[s[i].children[k]].kind, s1[s[i].children[k]].kind);
      }
    }
    EmitToChildren(s1, i, d);
    assert ChildrenSimple(st.state, i) by {
      forall k | 0 <= k < |s[i].children| ensures IsLeaf(st.state[s[i].children[k]].kind) {
        assert SameKind(s[s[i].children[k]].kind, st.state[s[i].children[k]].kind);
      }
    }
  }

  /**
   * `r` holds the arena and the outcomes after node `i` handled `|es|` queued
   * events, emitting `es` in dequeue order: the outcomes are exactly those
   * emissions, each child's queue gained them in that order, the node's queue
   * lost as many events from its head, and the last of them is its last
   * emitted event, produced while handling the last dequeued one; handling
   * nothing changes nothing.
   */
  predicate Sequenced(s: seq<Node>, r: (seq<Node>, seq<Outcome>), i: nat, es: seq<Event>)
  {
    && i < |s| && |r.0| == |s| && |es| <= |s[i].queue|
    && |r.1| == |es| && (forall k | 0 <= k < |es| :: r.1[k] == Emitted(es[k]))
    && r.0[i].children == s[i].children
    && r.0[i].queue == s[i].queue[|es|..]
    && (es == [] ==> r.0 == s)
    && (es != [] ==> r.0[i].lastEmit == Some(es[|es| - 1]) && r.0[i].lastHandle == Some(s[i].queue[|es| - 1]))
    && forall k | 0 <= k < |s[i].children| ::
         s[i].children[k] < |s| && r.0[s[i].children[k]].queue == s[s[i].children[k]].queue + es
  }

  /**
   * A sequential FunctionChain whose handler returns `ds[k]` for the `k`-th
   * queued event emits `ds`, stamped with its name, in dequeue order.
   */
  lemma {:induction false} SequentialEmitsInOrder(s: seq<Node>, i: nat, ds: seq<Payload>, now: int)
    requires WellFormed(s) && i < |s| && s[i].kind.FunctionKind? && ChildrenSimple(s, i)
    requires |ds| <= |s[i].queue|
    ensures Sequenced(s, Drain(s, i, Returning(ds), now), i, Stamped(s[i].name, ds))
    decreases |ds|
  {
    if ds != [] {
      var calls := Returning(ds);
      var st := ProcessStep(s, i, calls[0], now);
      SequentialStep(s, i, ds[0], now);
      DrainFirst(s, i, calls, now);
      assert calls[1..] == Returning(ds[1..]);
      SequentialEmitsInOrder(st.state, i, ds[1..], now);
      StampedCons(s[i].name, ds);
      SequencedCompose(s, st.state, st.outcome, Drain(st.state, i, calls[1..], now), i,
        Event(s[i].name, ds[0]), Stamped(s[i].name, ds[1..]));
    }
  }

  /** Stamping a non-empty sequence stamps its head, then its tail. */
  lemma StampedCons(name: string, ds: seq<Payload>)
    requires ds != []
    ensures Stamped(name, ds) == [Event(name, ds[0])] + Stamped(name, ds[1..])
  {
    assert Stamped(name, ds)[1..] == Stamped(name, ds[1..]);
  }

  /** One step emitting `e` followed by steps emitting `es` is those steps emitting `[e] + es`. */
  lemma SequencedCompose(s: seq<Node>, s1: seq<Node>, o: Outcome, r: (seq<Node>, seq<Outcome>), i: nat, e: Event, es: seq<Event>)
    requires i < |s| && |s1| == |s| && s[i].queue != [] && o == Emitted(e)
    requires s1[i].children == s[i].children && s1[i].queue == s[i].queue[1..]
    requires s1[i].lastEmit == Some(e) && s1[i].lastHandle == Some(s[i].queue[0])
    requires forall k | 0 <= k < |s[i].children| ::
      s[i].children[k] < |s| && s1[s[i].children[k]].queue == s[s[i].children[k]].queue + [e]
    requires Sequenced(s1, r, i, es)
    ensures Sequenced(s, (r.0, [o] + r.1), i, [e] + es)
  {
    var cs := s[i].children;
    forall k | 0 <= k < |cs| ensures r.0[cs[k]].queue == s[cs[k]].queue + ([e] + es) {
      assert s[cs[k]].queue + [e] + es == s[cs[k]].queue + ([e] + es);
    }
    forall k | 0 <= k < |es| + 1 ensures ([o] + r.1)[k] == Emitted(([e] + es)[k]) {
      if k > 0 {
        assert ([o] + r.1)[k] == r.1[k - 1];
      }
    }
    if es != [] {
      assert s1[i].queue[|es| - 1] == s[i].queue[|es|];
    }
    assert s1[i].queue[|es|..] == s[i].queue[|es| + 1..];
  }

  /** `n` outcomes, all Silent. */
  function Silence(n: nat): (r: seq<Outcome>)
    ensures |r| == n && forall k | 0 <= k < n :: r[k] == Silent
  {
    seq(n, k => Silent)
  }

  /**
   * While its task is in flight an exclusive chain drops every event it
   * dequeues: `n` steps take `n` events off the queue, emit nothing and change
   * nothing else, whatever the handler would have done.
   */
  lemma {:induction false} ExclusiveBusyDrain(s: seq<Node>, i: nat, calls: seq<Call>, now: int)
    requires WellFormed(s) && i < |s| && s[i].kind.ExclusiveKind? && !SlotFree(s[i].kind.slot)
    requires |calls| <= |s[i].queue|
    ensures Drain(s, i, calls, now) == (s[i := s[i].(queue := s[i].queue[|calls|..])], Silence(|calls|))
    decreases |calls|
  {
    if calls != [] {
      ExclusiveDropsWhileBusy(s, i, calls[0], now);
      var s1 := s[i := s[i].(queue := s[i].queue[1..])];
      ExclusiveBusyDrain(s1, i, calls[1..], now);
      assert s1[i].queue[|calls| - 1..] == s[i].queue[|calls|..];
      assert s1[i := s1[i].(queue := s1[i].queue[|calls| - 1..])] == s[i := s[i].(queue := s[i].queue[|calls|..])];
      assert [Silent] + Silence(|calls| - 1) == Silence(|calls|);
    } else {
      assert s[i].queue[0..] == s[i].queue;
      assert s[i := s[i]] == s;
    }
  }

  /**
   * Events that reach an exclusive chain with a free slot before its handler
   * completes: the first starts the only task and becomes the last handled
   * event, the others are dropped, nothing is emitted; when the task then
   * completes with `d`, `Event(name, d)` is emitted (to children that are
   * distinct non-Flow nodes other than the chain itself).
   */
  lemma ExclusiveOneInFlight(s: seq<Node>, i: nat, calls: seq<Call>, now: int, d: Payload)
    requires WellFormed(s) && i < |s| && s[i].kind.ExclusiveKind? && SlotFree(s[i].kind.slot)
    requires ChildrenSimple(s, i) && 1 <= |calls| <= |s[i].queue|
    ensures var r := Drain(s, i, calls, now);
      var q := s[i].queue;
      && r.1 == Silence(|calls|)
      && r.0 == s[i := s[i].(queue := q[|calls|..], lastHandle := Some(q[0]), kind := ExclusiveKind(Some(Task(q[0], false))))]
      && CompleteExclusive(r.0, i, Returns(Some(d))).outcome == Emitted(Event(s[i].name, d))
  {
    var q := s[i].queue;
    ExclusiveStartsWhenFree(s, i, calls[0], now);
    var s1 := s[i := s[i].(queue := q[1..], lastHandle := Some(q[0]), kind := ExclusiveKind(Some(Task(q[0], false))))];
    ProcessFrame(s, i, calls[0], now);
    ExclusiveBusyDrain(s1, i, calls[1..], now);
    assert q[1..][|calls| - 1..] == q[|calls|..];
    assert [Silent] + Silence(|calls| - 1) == Silence(|calls|);
    var r0 := s[i := s[i].(queue := q[|calls|..], lastHandle := Some(q[0]), kind := ExclusiveKind(Some(Task(q[0], false))))];
    assert Drain(s, i, calls, now).0 == r0;
    var f := Replace(r0, i, FinishExclusive(r0[i]));
    assert ChildrenSimple(f, i);
    EmitToChildren(f, i, d);
  }

  /**
   * `n` steps of a concurrent chain start one task per dequeued event, in
   * dequeue order, and emit nothing; the last of them is the last handled
   * event; no other node changes.
   */
  lemma {:induction false} ConcurrentDrain(s: seq<Node>, i: nat, calls: seq<Call>, now: int)
    requires WellFormed(s) && i < |s| && s[i].kind.ConcurrentKind? && 1 <= |calls| <= |s[i].queue|
    ensures var q := s[i].queue;
      Drain(s, i, calls, now)
        == (s[i := s[i].(queue := q[|calls|..], lastHandle := Some(q[|calls| - 1]),
                         kind := ConcurrentKind(s[i].kind.inFlight + q[..|calls|]))],
            Silence(|calls|))
    decreases |calls|
  {
    var q := s[i].queue;
    ConcurrentNeverEmitsOnHandle(s, i, calls[0], now);
    DrainFirst(s, i, calls, now);
    var s1 := s[i := s[i].(queue := q[1..], lastHandle := Some(q[0]), kind := ConcurrentKind(s[i].kind.inFlight + [q[0]]))];
    if |calls| > 1 {
      ConcurrentDrain(s1, i, calls[1..], now);
    }
    ConcurrentShift(s, i, |calls|);
    assert [Silent] + Silence(|calls| - 1) == Silence(|calls|);
  }

  /** The arena after one concurrent step followed by `n - 1` more is the arena after `n` steps. */
  lemma ConcurrentShift(s: seq<Node>, i: nat, n: nat)
    requires i < |s| && s[i].kind.ConcurrentKind? && 1 <= n <= |s[i].queue|
    ensures var q := s[i].queue;
      var s1 := s[i := s[i].(queue := q[1..], lastHandle := Some(q[0]), kind := ConcurrentKind(s[i].kind.inFlight + [q[0]]))];
      var target := s[i := s[i].(queue := q[n..], lastHandle := Some(q[n - 1]), kind := ConcurrentKind(s[i].kind.inFlight + q[..n]))];
      && (n == 1 ==> s1 == target)
      && (n > 1 ==> s1[i := s1[i].(queue := s1[i].queue[n - 1..], lastHandle := Some(s1[i].queue[n - 2]),
                                   kind := ConcurrentKind(s1[i].kind.inFlight + s1[i].queue[..n - 1]))] == target)
  {
    var q := s[i].queue;
    if n == 1 {
      assert q[..1] == [q[0]];
    } else {
      assert q[1..][n - 1..] == q[n..];
      assert q[1..][n - 2] == q[n - 1];
    }
    assert q[..n] == [q[0]] + q[1..][..n - 1];
    assert s[i].kind.inFlight + [q[0]] + q[1..][..n - 1] == s[i].kind.inFlight + q[..n];
  }
}
