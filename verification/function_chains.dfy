/**
 * The three function chains of actchain/chains/function.py, one per execution
 * discipline. Each `_on_handle` is a function from the node and the dequeued
 * event to the node's new state and the handler's result. Starting a task and
 * its completion are separate steps: the concurrent chain keeps the events of
 * its unfinished tasks, the exclusive chain its single task slot.
 */
module FunctionChains {
  import opened Events
  import opened Nodes

  /** `FunctionChain._on_handle`: record the event as last handled, then await the handler and return its result. */
  function HandleSequential(n: Node, e: Event, call: Call): Handled
    requires n.kind.FunctionKind?
  {
    Handled(n.(lastHandle := Some(e)), Invoke(call))
  }

  /** `ConcurrentFunctionChain._on_handle`: record the event, start a handler task on it, return None. */
  function HandleConcurrent(n: Node, e: Event): Handled
    requires n.kind.ConcurrentKind?
  {
    Handled(n.(lastHandle := Some(e), kind := ConcurrentKind(n.kind.inFlight + [e])), Ok(None))
  }

  /** The `_task` slot accepts a new task when it is empty or its task is done. */
  predicate SlotFree(slot: Option<Task>) {
    slot.None? || slot.value.done
  }

  /** `ExclusiveFunctionChain._on_handle`: start a task only when the slot is free; otherwise drop the event. */
  function HandleExclusive(n: Node, e: Event): Handled
    requires n.kind.ExclusiveKind?
  {
    if SlotFree(n.kind.slot) then
      Handled(n.(lastHandle := Some(e), kind := ExclusiveKind(Some(Task(e, false)))), Ok(None))
    else Handled(n, Ok(None))
  }

  /** The `k`-th unfinished task of a concurrent chain completes; completion order is free. */
  function FinishConcurrent(n: Node, k: nat): (n2: Node)
    requires n.kind.ConcurrentKind? && k < |n.kind.inFlight|
  {
    n.(kind := ConcurrentKind(n.kind.inFlight[..k] + n.kind.inFlight[k + 1..]))
  }

  /** The task in the exclusive slot completes; it stays in the slot, marked done. */
  function FinishExclusive(n: Node): (n2: Node)
    requires n.kind.ExclusiveKind? && n.kind.slot.Some? && !n.kind.slot.value.done
  {
    n.(kind := ExclusiveKind(Some(n.kind.slot.value.(done := true))))
  }

  // ---------------------------------------------------------------------------
  // Properties of one call

  /**
   * The sequential chain records every event it handles and passes the
   * handler's outcome on unchanged: its result, or the exception it raised.
   */
  lemma SequentialHandles(n: Node, e: Event, call: Call)
    requires n.kind.FunctionKind?
    ensures var h := HandleSequential(n, e, call);
      && h.node == n.(lastHandle := Some(e))
      && (h.result.Err? <==> call.Raises?)
      && (call.Returns? ==> h.result == Ok(call.result))
  {
  }

  /**
   * The concurrent chain never hands a result to the processing loop, so it
   * never emits there; each handled event joins the unfinished tasks, at the
   * end, and becomes the last handled event.
   */
  lemma ConcurrentStartsTask(n: Node, e: Event)
    requires n.kind.ConcurrentKind?
    ensures var h := HandleConcurrent(n, e);
      && h.result == Ok(None)
      && h.node.kind.inFlight == n.kind.inFlight + [e]
      && |h.node.kind.inFlight| == |n.kind.inFlight| + 1
      && h.node.lastHandle == Some(e)
  {
  }

  /** Completing a task removes exactly that task: the others stay, in order. */
  lemma ConcurrentFinishRemovesOne(n: Node, k: nat)
    requires n.kind.ConcurrentKind? && k < |n.kind.inFlight|
    ensures var r := FinishConcurrent(n, k).kind.inFlight;
      && |r| == |n.kind.inFlight| - 1
      && multiset(r) + multiset{n.kind.inFlight[k]} == multiset(n.kind.inFlight)
      && r == n.kind.inFlight[..k] + n.kind.inFlight[k + 1..]
  {
    var q := n.kind.inFlight;
    assert q == q[..k] + [q[k]] + q[k + 1..];
  }

  /**
   * The exclusive chain starts a task iff its slot is free; an event that
   * arrives while a task is in flight is dropped: the node is unchanged.
   * Either way nothing is handed to the processing loop.
   */
  lemma ExclusiveGate(n: Node, e: Event)
    requires n.kind.ExclusiveKind?
    ensures var h := HandleExclusive(n, e);
      && h.result == Ok(None)
      && (SlotFree(n.kind.slot) ==> h.node == n.(lastHandle := Some(e), kind := ExclusiveKind(Some(Task(e, false)))))
      && (!SlotFree(n.kind.slot) ==> h.node == n)
      && !SlotFree(h.node.kind.slot)
  {
  }

  /** Once a task is in the slot, only its completion frees the slot again. */
  lemma ExclusiveFinishFrees(n: Node)
    requires n.kind.ExclusiveKind? && n.kind.slot.Some? && !n.kind.slot.value.done
    ensures SlotFree(FinishExclusive(n).kind.slot)
    ensures FinishExclusive(n).kind.slot.value.event == n.kind.slot.value.event
  {
  }
}
